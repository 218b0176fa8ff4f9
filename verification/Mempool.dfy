/** The slab pool (src/mempool.c).  Memory is addresses; a slab holds blocks at a fixed stride, each
    a header of one cache line followed by the payload.  Free blocks are chained through their
    headers, and the magic of a header tells whether the block is in use. */
module Mempool {
  import opened Division
  import opened Options
  import opened Powers
  import opened Sequences

  const CACHELINE_SIZE := 64
  const EXPAND_BATCH_SIZE := 32
  const SIZE_MAX := 0xFFFF_FFFF_FFFF_FFFF

  datatype Magic = InUse | IsFree

  /** `next` is 0 for none. */
  datatype Header = Header(magic: Magic, next: nat)

  datatype Slab = Slab(base: nat, count: nat)

  // ---------- addresses ----------

  /** Where block `i` of a slab starts. */
  function BlockAt(base: nat, total: nat, i: nat): (a: nat)
    ensures a >= base + CACHELINE_SIZE
  {
    MulNonNegative(i, total);
    base + CACHELINE_SIZE + i * total
  }

  function SlabEnd(s: Slab, total: nat): nat { BlockAt(s.base, total, s.count) }

  lemma {:induction false} NextBlock(base: nat, total: nat, i: nat)
    ensures BlockAt(base, total, i + 1) == BlockAt(base, total, i) + total
  {
    MulSum(i, 1, total);
  }

  lemma {:induction false} BlocksApart(base: nat, total: nat, i: nat, j: nat)
    requires i < j
    ensures BlockAt(base, total, i) + total <= BlockAt(base, total, j)
  {
    MulSum(i + 1, j - i - 1, total);
    MulSum(i, 1, total);
    MulNonNegative(j - i - 1, total);
  }

  ghost predicate IsBlockOf(s: Slab, total: nat, addr: int) {
    exists i: nat :: i < s.count && addr == BlockAt(s.base, total, i)
  }

  /** verify_boundary */
  predicate VerifyBoundary(s: Slab, total: nat, addr: int)
    requires 0 < total
  {
    var start := s.base + CACHELINE_SIZE;
    start <= addr < SlabEnd(s, total) && (addr - start) % total == 0
  }

  /** The check accepts exactly the starts of the slab's blocks. */
  lemma {:induction false} BoundaryExact(s: Slab, total: nat, addr: int)
    requires 0 < total
    ensures VerifyBoundary(s, total, addr) <==> IsBlockOf(s, total, addr)
  {
    var start := s.base + CACHELINE_SIZE;
    if VerifyBoundary(s, total, addr) {
      var i := (addr - start) / total;
      Quotient(addr - start, total);
      if i >= s.count {
        MulSum(s.count, i - s.count, total);
        MulNonNegative(i - s.count, total);
      }
      assert addr == BlockAt(s.base, total, i);
    } else if IsBlockOf(s, total, addr) {
      var i: nat :| i < s.count && addr == BlockAt(s.base, total, i);
      MulNonNegative(i, total);
      Multiple(i, total);
      BlocksApart(s.base, total, i, s.count);
    }
  }

  lemma {:induction false} Quotient(d: nat, total: nat)
    requires 0 < total && d % total == 0
    ensures d / total >= 0 && d == (d / total) * total
  {}

  // ---------- the free list ----------

  function Nth(s: seq<nat>, i: nat): nat { if i < |s| then s[i] else 0 }

  ghost predicate NodeOk(headers: map<nat, Header>, free: seq<nat>, i: nat)
    requires i < |free|
  {
    free[i] in headers && headers[free[i]] == Header(IsFree, Nth(free, i + 1))
  }

  /** The headers chain the free blocks. */
  ghost predicate Chained(headers: map<nat, Header>, free: seq<nat>) {
    Distinct(free) && forall i :: 0 <= i < |free| ==> NodeOk(headers, free, i)
  }

  lemma {:induction false} ChainedPop(headers: map<nat, Header>, free: seq<nat>, h: Header)
    requires Chained(headers, free) && free != []
    ensures Chained(headers[free[0] := h], free[1..]) && free[0] !in free[1..]
  {
    var headers', r := headers[free[0] := h], free[1..];
    forall i | 0 <= i < |r| ensures NodeOk(headers', r, i) {
      assert NodeOk(headers, free, i + 1);
    }
  }

  lemma {:induction false} ChainedPush(headers: map<nat, Header>, free: seq<nat>, a: nat)
    requires Chained(headers, free) && a !in free
    ensures Chained(headers[a := Header(IsFree, Nth(free, 0))], [a] + free)
  {
    var headers', r := headers[a := Header(IsFree, Nth(free, 0))], [a] + free;
    forall i | 0 <= i < |r| ensures NodeOk(headers', r, i) {
      if i > 0 { assert NodeOk(headers, free, i - 1); }
    }
  }

  /** The blocks of a slab, in order. */
  function BlocksOf(s: Slab, total: nat): (b: seq<nat>)
    ensures |b| == s.count && forall i :: 0 <= i < |b| ==> b[i] == BlockAt(s.base, total, i)
  {
    seq(s.count, i requires 0 <= i => BlockAt(s.base, total, i))
  }

  lemma {:induction false} BlocksDistinct(s: Slab, total: nat)
    requires 0 < total
    ensures Distinct(BlocksOf(s, total)) && |Elements(BlocksOf(s, total))| == s.count
    ensures forall a: nat :: a in Elements(BlocksOf(s, total)) <==> IsBlockOf(s, total, a)
  {
    var b := BlocksOf(s, total);
    forall i, j | 0 <= i < j < |b| ensures b[i] != b[j] {
      BlocksApart(s.base, total, i, j);
    }
    DistinctSize(b);
    forall a: nat | IsBlockOf(s, total, a) ensures a in b {
      var i: nat :| i < s.count && a == BlockAt(s.base, total, i);
      assert b[i] == a;
    }
  }

  /** The headers after the slab's have been written, in front of the free list. */
  ghost predicate Written(headers: map<nat, Header>, before: map<nat, Header>, s: Slab, total: nat, first: nat, n: nat) {
    n <= s.count &&
    (forall i :: 0 <= i < n ==> WrittenAt(headers, s, total, first, i)) &&
    forall a :: a in before && a !in BlocksOf(s, total) ==> a in headers && headers[a] == before[a]
  }

  ghost predicate WrittenAt(headers: map<nat, Header>, s: Slab, total: nat, first: nat, i: nat) {
    BlockAt(s.base, total, i) in headers &&
    headers[BlockAt(s.base, total, i)] == Header(IsFree, if i + 1 < s.count then BlockAt(s.base, total, i + 1) else first)
  }

  lemma {:induction false} WrittenMore(headers: map<nat, Header>, before: map<nat, Header>, s: Slab, total: nat, first: nat, n: nat)
    requires Written(headers, before, s, total, first, n) && n < s.count && 0 < total
    ensures var a := BlockAt(s.base, total, n);
            Written(headers[a := Header(IsFree, if n + 1 < s.count then BlockAt(s.base, total, n + 1) else first)],
                    before, s, total, first, n + 1)
  {
    var a := BlockAt(s.base, total, n);
    var r := headers[a := Header(IsFree, if n + 1 < s.count then BlockAt(s.base, total, n + 1) else first)];
    assert BlocksOf(s, total)[n] == a;
    forall i | 0 <= i <= n ensures WrittenAt(r, s, total, first, i) {
      if i < n {
        assert WrittenAt(headers, s, total, first, i);
        BlocksApart(s.base, total, i, n);
      }
    }
  }

  lemma {:induction false} WrittenChained(headers: map<nat, Header>, before: map<nat, Header>, s: Slab, total: nat, free: seq<nat>)
    requires Written(headers, before, s, total, Nth(free, 0), s.count) && Chained(before, free) && 0 < total
    requires forall a :: a in free ==> a !in BlocksOf(s, total)
    ensures Chained(headers, BlocksOf(s, total) + free)
  {
    var b := BlocksOf(s, total);
    var r := b + free;
    BlocksDistinct(s, total);
    assert Distinct(r) by {
      forall i, j | 0 <= i < j < |r| ensures r[i] != r[j] {
        if i < |b| <= j { assert free[j - |b|] in free; }
      }
    }
    forall i | 0 <= i < |r| ensures NodeOk(headers, r, i) {
      if i < |b| {
        assert WrittenAt(headers, s, total, Nth(free, 0), i);
      } else {
        assert NodeOk(before, free, i - |b|);
        assert free[i - |b|] in free;
      }
    }
  }

  // ---------- the pool ----------

  /** The blocks of the slabs. */
  function BlockSet(slabs: seq<Slab>, total: nat): set<nat> {
    if slabs == [] then {} else Elements(BlocksOf(slabs[0], total)) + BlockSet(slabs[1..], total)
  }

  /** Slabs do not overlap. */
  ghost predicate SlabsApart(slabs: seq<Slab>, total: nat) {
    forall i, j :: 0 <= i < j < |slabs| ==> SlabApart(slabs[i], slabs[j], total)
  }

  ghost predicate SlabApart(s: Slab, t: Slab, total: nat) {
    SlabEnd(s, total) <= t.base || SlabEnd(t, total) <= s.base
  }

  ghost predicate Disjoint(s: Slab, slabs: seq<Slab>, total: nat) {
    forall i :: 0 <= i < |slabs| ==> SlabApart(s, slabs[i], total)
  }

  /** A header says whether its block is on the free list. */
  ghost predicate Told(headers: map<nat, Header>, blocks: set<nat>, free: seq<nat>) {
    (forall a :: a in free ==> a in blocks) &&
    forall a :: a in blocks ==> a in headers && (headers[a].magic.IsFree? <==> a in free)
  }

  lemma {:induction false} InSomeSlab(slabs: seq<Slab>, total: nat, a: nat) returns (i: nat)
    requires a in BlockSet(slabs, total) && 0 < total
    ensures i < |slabs| && IsBlockOf(slabs[i], total, a)
  {
    BlocksDistinct(slabs[0], total);
    if a in BlocksOf(slabs[0], total) {
      i := 0;
    } else {
      i := InSomeSlab(slabs[1..], total, a);
      i := i + 1;
    }
  }

  lemma {:induction false} InBlockSet(slabs: seq<Slab>, total: nat, i: nat, a: nat)
    requires i < |slabs| && IsBlockOf(slabs[i], total, a) && 0 < total
    ensures a in BlockSet(slabs, total)
  {
    BlocksDistinct(slabs[0], total);
    if i > 0 { InBlockSet(slabs[1..], total, i - 1, a); }
  }

  lemma {:induction false} NotNull(slabs: seq<Slab>, total: nat, a: nat)
    requires a in BlockSet(slabs, total) && 0 < total
    ensures 0 < a
  {
    var i := InSomeSlab(slabs, total, a);
    WithinSlab(slabs[i], total, a);
  }

  /** No two blocks overlap. */
  lemma {:induction false} BlocksNeverOverlap(slabs: seq<Slab>, total: nat, a: nat, b: nat)
    requires SlabsApart(slabs, total) && 0 < total
    requires a in BlockSet(slabs, total) && b in BlockSet(slabs, total) && a != b
    ensures a + total <= b || b + total <= a
  {
    var i := InSomeSlab(slabs, total, a);
    var j := InSomeSlab(slabs, total, b);
    if i == j {
      SameSlabApart(slabs[i], total, a, b);
    } else {
      assert if i < j then SlabApart(slabs[i], slabs[j], total) else SlabApart(slabs[j], slabs[i], total);
      WithinSlab(slabs[i], total, a);
      WithinSlab(slabs[j], total, b);
    }
  }

  lemma {:induction false} AddedSlab(s: Slab, slabs: seq<Slab>, total: nat)
    requires 0 < total && SlabsApart(slabs, total) && Disjoint(s, slabs, total)
    ensures SlabsApart([s] + slabs, total)
    ensures var added := Elements(BlocksOf(s, total));
            BlockSet([s] + slabs, total) == added + BlockSet(slabs, total) && added !! BlockSet(slabs, total) &&
            |BlockSet([s] + slabs, total)| == s.count + |BlockSet(slabs, total)|
  {
    var added, all := Elements(BlocksOf(s, total)), [s] + slabs;
    assert all[1..] == slabs;
    BlocksDistinct(s, total);
    forall a | a in added ensures a !in BlockSet(slabs, total) {
      if a in BlockSet(slabs, total) {
        var i := InSomeSlab(slabs, total, a);
        assert SlabApart(s, slabs[i], total);
        WithinSlab(s, total, a);
        WithinSlab(slabs[i], total, a);
      }
    }
    forall i, j | 0 <= i < j < |all| ensures SlabApart(all[i], all[j], total) {
      if i > 0 { assert SlabApart(slabs[i - 1], slabs[j - 1], total); }
    }
  }

  lemma {:induction false} WithinSlab(s: Slab, total: nat, a: nat)
    requires IsBlockOf(s, total, a)
    ensures s.base < a && a + total <= SlabEnd(s, total)
  {
    var i: nat :| i < s.count && a == BlockAt(s.base, total, i);
    BlocksApart(s.base, total, i, s.count);
  }

  lemma {:induction false} SameSlabApart(s: Slab, total: nat, a: nat, b: nat)
    requires IsBlockOf(s, total, a) && IsBlockOf(s, total, b) && a != b
    ensures a + total <= b || b + total <= a
  {
    var i: nat :| i < s.count && a == BlockAt(s.base, total, i);
    var j: nat :| j < s.count && b == BlockAt(s.base, total, j);
    if i < j { BlocksApart(s.base, total, i, j); } else { BlocksApart(s.base, total, j, i); }
  }

  lemma {:induction false} FirstBlock(s: Slab, total: nat)
    requires 0 < s.count
    ensures BlocksOf(s, total)[0] == s.base + CACHELINE_SIZE
  {
    assert 0 * total == 0;
  }

  lemma {:induction false} LiveSame(added: seq<nat>, blocks: set<nat>, free: seq<nat>)
    requires Elements(added) !! blocks
    ensures Elements(added) + blocks - Elements(added + free) == blocks - Elements(free)
  {}

  lemma {:induction false} ToldPush(headers: map<nat, Header>, blocks: set<nat>, free: seq<nat>, a: nat)
    requires Told(headers, blocks, free) && a in blocks && a !in free
    ensures Told(headers[a := Header(IsFree, Nth(free, 0))], blocks, [a] + free)
    ensures blocks - Elements([a] + free) == blocks - Elements(free) - {a}
  {}

  lemma {:induction false} ToldPop(headers: map<nat, Header>, blocks: set<nat>, free: seq<nat>)
    requires Told(headers, blocks, free) && Distinct(free) && free != []
    ensures Told(headers[free[0] := Header(InUse, 0)], blocks, free[1..])
    ensures blocks - Elements(free[1..]) == blocks - Elements(free) + {free[0]}
  {
    assert free == [free[0]] + free[1..];
    assert free[0] !in free[1..];
  }

  lemma {:induction false} InstalledBlocks(s: Slab, slabs: seq<Slab>, total: nat, free: seq<nat>)
    requires 0 < total && SlabsApart(slabs, total) && Disjoint(s, slabs, total)
    ensures SlabsApart([s] + slabs, total)
    ensures var blocks, more := BlockSet(slabs, total), BlockSet([s] + slabs, total);
            blocks <= more && |more| == s.count + |blocks| &&
            more - Elements(BlocksOf(s, total) + free) == blocks - Elements(free)
  {
    AddedSlab(s, slabs, total);
    LiveSame(BlocksOf(s, total), BlockSet(slabs, total), free);
  }

  lemma {:induction false} InstalledList(headers: map<nat, Header>, before: map<nat, Header>, s: Slab, slabs: seq<Slab>, total: nat, free: seq<nat>)
    requires 0 < total && 0 < s.count && SlabsApart(slabs, total) && Disjoint(s, slabs, total)
    requires Written(headers, before, s, total, Nth(free, 0), s.count)
    requires Chained(before, free) && Told(before, BlockSet(slabs, total), free)
    ensures var r := BlocksOf(s, total) + free;
            Chained(headers, r) && Nth(r, 0) == s.base + CACHELINE_SIZE && Told(headers, BlockSet([s] + slabs, total), r)
  {
    AddedSlab(s, slabs, total);
    WrittenChained(headers, before, s, total, free);
    WrittenTold(headers, before, s, total, BlockSet(slabs, total), free);
    FirstBlock(s, total);
  }

  class Pool {
    const blockSize: nat
    const totalSize: nat
    const maxBlocks: nat
    var slabs: seq<Slab>
    var lastFreed: Option<Slab>
    var freeList: nat
    var headers: map<nat, Header>
    var poolBlocks: nat
    var freeCount: nat
    var poolAllocs: nat
    var poolFrees: nat
    ghost var free: seq<nat>

    ghost function Blocks(): set<nat>
      reads this
    {
      BlockSet(slabs, totalSize)
    }

    ghost predicate Counted()
      reads this
    {
      freeCount == |free| && poolBlocks == |Blocks()| && poolBlocks <= maxBlocks && poolAllocs - poolFrees == poolBlocks - freeCount
    }

    ghost predicate Valid()
      reads this
    {
      CACHELINE_SIZE + blockSize <= totalSize && Counted() &&
      SlabsApart(slabs, totalSize) &&
      Chained(headers, free) && freeList == Nth(free, 0) && Told(headers, Blocks(), free) &&
      (lastFreed.Some? ==> lastFreed.value in slabs)
    }

    /** The blocks in use. */
    ghost function Live(): set<nat>
      reads this
    {
      Blocks() - Elements(free)
    }

    /** expand_pool_batch, for a slab at an address the allocator has found free. */
    method ExpandBatch(batchCount: nat, memory: Option<nat>) returns (got: nat)
      requires Valid() && poolBlocks + batchCount <= maxBlocks
      requires memory.Some? ==> Disjoint(Slab(memory.value, batchCount), slabs, totalSize)
      modifies this`slabs, this`freeList, this`headers, this`poolBlocks, this`freeCount, this`free
      ensures Valid() && old(Blocks()) <= Blocks() && Live() == old(Live())
      ensures got > 0 ==> free != []
      ensures got == 0 ==> free == old(free) && slabs == old(slabs)
      ensures got == if memory.Some? && batchCount <= (SIZE_MAX - CACHELINE_SIZE) / totalSize then batchCount else 0
    {
      if batchCount == 0 {
        return 0;
      }
      if batchCount > (SIZE_MAX - CACHELINE_SIZE) / totalSize {
        return 0;
      }
      if memory.None? {
        return 0;
      }
      Install(Slab(memory.value, batchCount));
      return batchCount;
    }

    /** The rest of expand_pool_batch, once there is memory. */
    method Install(slab: Slab)
      requires Valid() && poolBlocks + slab.count <= maxBlocks && Disjoint(slab, slabs, totalSize) && 0 < slab.count
      modifies this`slabs, this`freeList, this`headers, this`poolBlocks, this`freeCount, this`free
      ensures Valid() && old(Blocks()) <= Blocks() && Live() == old(Live()) && free != []
    {
      var headers' := FormatSlab(slab);
      InstalledBlocks(slab, slabs, totalSize, free);
      InstalledList(headers', headers, slab, slabs, totalSize, free);
      free := BlocksOf(slab, totalSize) + free;
      slabs := [slab] + slabs;
      headers, freeList := headers', slab.base + CACHELINE_SIZE;
      poolBlocks, freeCount := poolBlocks + slab.count, freeCount + slab.count;
    }

    /** The loop of expand_pool_batch, which chains the new blocks in front of the free list. */
    method FormatSlab(slab: Slab) returns (r: map<nat, Header>)
      requires 0 < totalSize
      ensures Written(r, headers, slab, totalSize, freeList, slab.count)
    {
      r := headers;
      var curr := slab.base + CACHELINE_SIZE;
      for i := 0 to slab.count
        invariant curr == BlockAt(slab.base, totalSize, i) && Written(r, headers, slab, totalSize, freeList, i)
      {
        NextBlock(slab.base, totalSize, i);
        WrittenMore(r, headers, slab, totalSize, freeList, i);
        var nextBlock := curr + totalSize;
        r := r[curr := Header(IsFree, if i < slab.count - 1 then nextBlock else freeList)];
        curr := nextBlock;
      }
    }

    /** mempool_create, when its reservation succeeds. */
    constructor (blockSize: nat, maxBlocks: nat)
      ensures Valid() && Live() == {} && free == [] && slabs == [] && this.blockSize == blockSize
      ensures this.maxBlocks == if maxBlocks == 0 then SIZE_MAX else maxBlocks
      ensures totalSize % CACHELINE_SIZE == 0 && CACHELINE_SIZE + blockSize <= totalSize < blockSize + 2 * CACHELINE_SIZE
    {
      this.blockSize := blockSize;
      totalSize := (CACHELINE_SIZE + blockSize + CACHELINE_SIZE - 1) / CACHELINE_SIZE * CACHELINE_SIZE;
      this.maxBlocks := if maxBlocks == 0 then SIZE_MAX else maxBlocks;
      slabs, lastFreed, freeList, headers := [], None, 0, map[];
      poolBlocks, freeCount, poolAllocs, poolFrees := 0, 0, 0, 0;
      free := [];
    }

    /** How many blocks the pool grows by. */
    function BatchSize(): nat
      requires poolBlocks <= maxBlocks
      reads this`poolBlocks
    {
      Smaller(EXPAND_BATCH_SIZE, maxBlocks - poolBlocks)
    }

    /** Growing is allowed and possible. */
    ghost predicate CanGrow(memory: Option<nat>)
      requires poolBlocks <= maxBlocks && 0 < totalSize
      reads this`poolBlocks
    {
      poolBlocks < maxBlocks && memory.Some? && BatchSize() <= (SIZE_MAX - CACHELINE_SIZE) / totalSize
    }

    /** The first half of mempool_alloc_sized: an empty free list is refilled if that is allowed. */
    method Refill(memory: Option<nat>)
      requires Valid() && (memory.Some? ==> Disjoint(Slab(memory.value, BatchSize()), slabs, totalSize))
      modifies this`slabs, this`freeList, this`headers, this`poolBlocks, this`freeCount, this`free
      ensures Valid() && old(Blocks()) <= Blocks() && Live() == old(Live())
      ensures free != [] <==> old(free != [] || CanGrow(memory))
    {
      if free != [] { NotNullInList(); }
      if freeList == 0 && poolBlocks < maxBlocks {
        var _ := ExpandBatch(BatchSize(), memory);
      }
    }

    /** mempool_alloc_sized; `memory` is where the allocator would put one more slab. */
    method AllocSized(size: nat, memory: Option<nat>) returns (ptr: Option<nat>)
      requires Valid() && (memory.Some? ==> Disjoint(Slab(memory.value, BatchSize()), slabs, totalSize))
      modifies this
      ensures Valid() && old(Blocks()) <= Blocks() && poolFrees == old(poolFrees)
      ensures ptr.Some? <==> size <= blockSize && old(free != [] || CanGrow(memory))
      ensures ptr.None? ==> Live() == old(Live()) && poolAllocs == old(poolAllocs)
      ensures ptr.Some? ==> CACHELINE_SIZE < ptr.value && poolAllocs == old(poolAllocs) + 1
      ensures ptr.Some? ==> var a := ptr.value - CACHELINE_SIZE; a in Blocks() && a !in old(Live()) && Live() == old(Live()) + {a}
    {
      if size > blockSize {
        return None;
      }
      Refill(memory);
      if free != [] { NotNullInList(); }
      if freeList != 0 {
        ptr := TakeFirst();
      } else {
        ptr := None;
      }
    }

    lemma {:induction false} NotNullInList()
      requires Valid() && free != []
      ensures 0 < free[0] && free[0] in Blocks() && free[0] == freeList
    {
      NotNull(slabs, totalSize, free[0]);
    }

    /** The success path of mempool_alloc_sized. */
    method TakeFirst() returns (ptr: Option<nat>)
      requires Valid() && free != []
      modifies this`freeList, this`headers, this`freeCount, this`poolAllocs, this`free
      ensures Valid() && ptr.Some? && poolAllocs == old(poolAllocs) + 1
      ensures CACHELINE_SIZE < ptr.value
      ensures var a := ptr.value - CACHELINE_SIZE; a in Blocks() && a !in old(Live()) && Live() == old(Live()) + {a}
    {
      NotNullInList();
      assert NodeOk(headers, free, 0);
      var header := freeList;
      ChainedPop(headers, free, Header(InUse, 0));
      ToldPop(headers, Blocks(), free);
      freeList := headers[header].next;
      headers := headers[header := Header(InUse, 0)];
      freeCount, poolAllocs := freeCount - 1, poolAllocs + 1;
      free := free[1..];
      return Some(header + CACHELINE_SIZE);
    }

    /** The search for the slab of a header in internal_free, first in the slab freed into last. */
    method FindSlab(hdr: int) returns (found: bool)
      requires Valid()
      modifies this`lastFreed
      ensures Valid() && found == (0 <= hdr && hdr in Blocks())
    {
      if lastFreed.Some? && VerifyBoundary(lastFreed.value, totalSize, hdr) {
        BoundaryExact(lastFreed.value, totalSize, hdr);
        var i: nat :| i < |slabs| && slabs[i] == lastFreed.value;
        InBlockSet(slabs, totalSize, i, hdr);
        return true;
      }
      for i := 0 to |slabs|
        invariant lastFreed == old(lastFreed)
        invariant forall j :: 0 <= j < i ==> !IsBlockOf(slabs[j], totalSize, hdr)
      {
        BoundaryExact(slabs[i], totalSize, hdr);
        if VerifyBoundary(slabs[i], totalSize, hdr) {
          InBlockSet(slabs, totalSize, i, hdr);
          lastFreed := Some(slabs[i]);
          return true;
        }
      }
      if 0 <= hdr && hdr in Blocks() {
        ghost var i := InSomeSlab(slabs, totalSize, hdr);
      }
      return false;
    }

    /** internal_free: a pointer that is not the payload of a block in use changes nothing but the
        slab looked at first next time. */
    method Free(ptr: nat)
      requires Valid()
      modifies this`lastFreed, this`headers, this`freeList, this`freeCount, this`poolFrees, this`free
      ensures Valid()
      ensures var a := ptr - CACHELINE_SIZE;
              if ptr != 0 && 0 <= a && a in old(Live()) then Live() == old(Live()) - {a} && poolFrees == old(poolFrees) + 1
              else headers == old(headers) && free == old(free) && freeCount == old(freeCount) && poolFrees == old(poolFrees)
    {
      if ptr == 0 {
        return;
      }
      var hdr := ptr - CACHELINE_SIZE;
      var found := FindSlab(hdr);
      if !found {
        return;
      }
      if headers[hdr].magic.IsFree? {
        return;
      }
      Release(hdr);
    }

    /** The end of internal_free: the block goes in front of the free list. */
    method Release(hdr: nat)
      requires Valid() && hdr in Live()
      modifies this`headers, this`freeList, this`freeCount, this`poolFrees, this`free
      ensures Valid() && Live() == old(Live()) - {hdr} && poolFrees == old(poolFrees) + 1
    {
      ChainedPush(headers, free, hdr);
      ToldPush(headers, Blocks(), free, hdr);
      headers := headers[hdr := Header(IsFree, freeList)];
      freeList := hdr;
      freeCount, poolFrees := freeCount + 1, poolFrees + 1;
      free := [hdr] + free;
    }

    /** mempool_destroy: what it reports as leaked are the blocks in use, and also the allocations
        that have not been freed; its guard against more free blocks than blocks never fires. */
    method Destroy() returns (leaks: nat)
      requires Valid()
      ensures leaks == |Live()| && leaks == poolAllocs - poolFrees
    {
      DistinctSize(free);
      FreeAreBlocks(Blocks(), Elements(free));
      leaks := poolBlocks - freeCount;
    }
  }

  lemma {:induction false} WrittenTold(headers: map<nat, Header>, before: map<nat, Header>, s: Slab, total: nat, blocks: set<nat>, free: seq<nat>)
    requires 0 < total && Written(headers, before, s, total, Nth(free, 0), s.count) && Told(before, blocks, free)
    requires Elements(BlocksOf(s, total)) !! blocks
    ensures Told(headers, Elements(BlocksOf(s, total)) + blocks, BlocksOf(s, total) + free)
  {
    var b := BlocksOf(s, total);
    forall a | a in Elements(b) + blocks ensures a in headers && (headers[a].magic.IsFree? <==> a in b + free) {
      if a in b {
        var i :| 0 <= i < |b| && b[i] == a;
        assert WrittenAt(headers, s, total, Nth(free, 0), i);
      } else {
        assert a in blocks && a !in Elements(b);
      }
    }
  }

  function Smaller(a: nat, b: nat): nat { if a < b then a else b }

  lemma {:induction false} FreeAreBlocks(blocks: set<nat>, free: set<nat>)
    requires free <= blocks
    ensures |free| <= |blocks| && |blocks - free| == |blocks| - |free|
  {
    assert blocks == free + (blocks - free);
  }

  /** The payloads of two blocks in use never overlap, nor does a payload reach into a header. */
  lemma {:induction false} PayloadsApart(p: Pool, a: nat, b: nat)
    requires p.Valid() && a in p.Live() && b in p.Live() && a != b
    ensures a + CACHELINE_SIZE + p.blockSize <= b || b + CACHELINE_SIZE + p.blockSize <= a
  {
    BlocksNeverOverlap(p.slabs, p.totalSize, a, b);
  }
}
