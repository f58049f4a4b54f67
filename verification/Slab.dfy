/**
  One free list of the slab allocator: blocks of n words carved out of chunks, the links of the list stored in the
  first word of the free blocks. Addresses count words; 0 is the null pointer.
 */
module Slab {
  import opened Align

  const CHUNK_OBJS: nat := 1024

  /** Block i of the chunk at base. */
  function BlockAt(base: nat, i: nat, n: nat): (a: nat) {
    base + i * n
  }

  /** The words of two different blocks do not overlap. */
  predicate Apart(a: nat, b: nat, n: nat) {
    a + n <= b || b + n <= a
  }

  /** next_free leads through the free blocks, in this order, to null. */
  predicate IsList(mem: map<nat, nat>, next: nat, free: seq<nat>)
    decreases |free|
  {
    if free == [] then next == 0
    else next == free[0] != 0 && next in mem && IsList(mem, mem[next], free[1..])
  }

  predicate Distinct(free: seq<nat>) {
    forall i, j | 0 <= i < j < |free| :: free[i] != free[j]
  }

  /** Words outside the free blocks' first words may change. */
  lemma {:induction false} ListKept(mem: map<nat, nat>, mem': map<nat, nat>, next: nat, free: seq<nat>)
    requires IsList(mem, next, free) && forall a | a in free && a in mem :: a in mem' && mem'[a] == mem[a]
    ensures IsList(mem', next, free)
    decreases |free|
  {
    if free != [] {
      ListKept(mem, mem', mem[next], free[1..]);
    }
  }

  /** free: a block goes to the front of the list, whatever its owner left in it. */
  lemma Push(mem: map<nat, nat>, next: nat, free: seq<nat>, a: nat)
    requires IsList(mem, next, free) && a != 0 && a !in free
    ensures IsList(mem[a := next], a, [a] + free)
  {
    ListKept(mem, mem[a := next], next, free);
    assert ([a] + free)[1..] == free;
  }

  /** try_pop: the first block leaves the list. */
  lemma Pop(mem: map<nat, nat>, next: nat, free: seq<nat>)
    requires IsList(mem, next, free)
    ensures next == 0 <==> free == []
    ensures free != [] ==> next in mem && IsList(mem, mem[next], free[1..])
  {
  }

  lemma {:induction false} ListIsUnique(mem: map<nat, nat>, next: nat, a: seq<nat>, b: seq<nat>)
    requires IsList(mem, next, a) && IsList(mem, next, b)
    ensures a == b
    decreases |a|
  {
    if a != [] {
      ListIsUnique(mem, mem[next], a[1..], b[1..]);
    }
  }

  // ----- the blocks of the chunks

  ghost function BlocksOf(base: nat, n: nat): (s: set<nat>) {
    set i | 0 <= i < CHUNK_OBJS :: BlockAt(base, i, n)
  }

  /** All blocks of all chunks. */
  ghost function AllBlocks(chunks: seq<nat>, n: nat): (s: set<nat>) {
    set c, i | 0 <= c < |chunks| && 0 <= i < CHUNK_OBJS :: BlockAt(chunks[c], i, n)
  }

  /** What malloc guarantees: chunks do not overlap, and none is null. */
  ghost predicate ChunksOk(chunks: seq<nat>, n: nat) {
    && (forall c | 0 <= c < |chunks| :: 0 < chunks[c])
    && (forall c, d | 0 <= c < d < |chunks| :: Apart(chunks[c], chunks[d], CHUNK_OBJS * n))
  }

  lemma BlockBounds(base: nat, i: nat, n: nat)
    requires i < CHUNK_OBJS
    ensures base <= BlockAt(base, i, n) && BlockAt(base, i, n) + n <= base + CHUNK_OBJS * n
  {
    MulMonotone(i + 1, CHUNK_OBJS, n);
    assert (i + 1) * n == i * n + n;
  }

  lemma SameChunkApart(base: nat, i: nat, j: nat, n: nat)
    requires i < j
    ensures Apart(BlockAt(base, i, n), BlockAt(base, j, n), n)
  {
    MulMonotone(i + 1, j, n);
    assert (i + 1) * n == i * n + n;
  }

  /** Different blocks never overlap, in one chunk or in two. */
  lemma BlocksApart(chunks: seq<nat>, n: nat, a: nat, b: nat)
    requires ChunksOk(chunks, n) && a in AllBlocks(chunks, n) && b in AllBlocks(chunks, n) && a != b
    ensures Apart(a, b, n)
  {
    var c, i :| 0 <= c < |chunks| && 0 <= i < CHUNK_OBJS && BlockAt(chunks[c], i, n) == a;
    var d, j :| 0 <= d < |chunks| && 0 <= j < CHUNK_OBJS && BlockAt(chunks[d], j, n) == b;
    BlockBounds(chunks[c], i, n);
    BlockBounds(chunks[d], j, n);
    if c == d {
      if i < j {
        SameChunkApart(chunks[c], i, j, n);
      } else if j < i {
        SameChunkApart(chunks[c], j, i, n);
      }
    } else if c < d {
      assert Apart(chunks[c], chunks[d], CHUNK_OBJS * n);
    } else {
      assert Apart(chunks[d], chunks[c], CHUNK_OBJS * n);
    }
  }

  /** A block of a new chunk is none of the old ones. */
  lemma NewBlock(chunks: seq<nat>, base: nat, n: nat, i: nat, a: nat)
    requires ChunksOk(chunks + [base], n) && n > 0 && i < CHUNK_OBJS && a in AllBlocks(chunks, n)
    ensures a != BlockAt(base, i, n)
  {
    var c, j :| 0 <= c < |chunks| && 0 <= j < CHUNK_OBJS && BlockAt(chunks[c], j, n) == a;
    BlockBounds(chunks[c], j, n);
    BlockBounds(base, i, n);
    assert (chunks + [base])[c] == chunks[c] && (chunks + [base])[|chunks|] == base;
    assert Apart(chunks[c], base, CHUNK_OBJS * n);
  }

  lemma BlocksOfMore(chunks: seq<nat>, base: nat, n: nat, a: nat)
    ensures a in AllBlocks(chunks + [base], n) <==> a in AllBlocks(chunks, n) || a in BlocksOf(base, n)
  {
    var all := chunks + [base];
    if a in AllBlocks(all, n) {
      var c, i :| 0 <= c < |all| && 0 <= i < CHUNK_OBJS && BlockAt(all[c], i, n) == a;
      if c < |chunks| {
        assert BlockAt(chunks[c], i, n) == a;
      } else {
        assert BlockAt(base, i, n) == a;
      }
    }
    if a in AllBlocks(chunks, n) {
      var c, i :| 0 <= c < |chunks| && 0 <= i < CHUNK_OBJS && BlockAt(chunks[c], i, n) == a;
      assert BlockAt(all[c], i, n) == a;
    }
    if a in BlocksOf(base, n) {
      var i :| 0 <= i < CHUNK_OBJS && BlockAt(base, i, n) == a;
      assert BlockAt(all[|chunks|], i, n) == a;
    }
  }

  // ----- the allocator

  class FreeList {
    const n: nat
    var nextFree: nat
    var mem: map<nat, nat>
    var chunks: seq<nat>
    ghost var free: seq<nat>
    ghost var live: set<nat>

    /** The list is intact and acyclic; a block is free or live, never both; together they are all blocks. */
    ghost predicate Valid()
      reads this
    {
      && 2 <= n && ChunksOk(chunks, n)
      && IsList(mem, nextFree, free) && Distinct(free)
      && (forall a | a in free :: a !in live)
      && (forall a :: a in AllBlocks(chunks, n) <==> a in free || a in live)
      && |free| + |live| == CHUNK_OBJS * |chunks|
    }

    /** base: the first chunk, from malloc. */
    constructor (n: nat, base: nat)
      requires 2 <= n && base > 0
      ensures Valid() && this.n == n && live == {} && |free| == CHUNK_OBJS
    {
      this.n := n;
      nextFree, mem, chunks := 0, map[], [];
      free, live := [], {};
      new;
      AllocateNewChunk(base);
    }

    /** The loop of allocate_new_chunk: links the blocks of the chunk in front of the list, one by one. */
    method AllocateNewChunk(base: nat)
      requires Valid() && ChunksOk(chunks + [base], n)
      modifies this
      ensures Valid() && live == old(live) && |free| == |old(free)| + CHUNK_OBJS && chunks == old(chunks) + [base]
    {
      var i := 0;
      while i < CHUNK_OBJS
        invariant 0 <= i <= CHUNK_OBJS && chunks == old(chunks) && live == old(live)
        invariant IsList(mem, nextFree, free) && Distinct(free) && |free| == |old(free)| + i
        invariant forall a :: a in free <==> a in old(free) || exists k :: 0 <= k < i && a == BlockAt(base, k, n)
      {
        var addr := BlockAt(base, i, n);
        NotLinkedYet(i, base, old(free));
        Push(mem, nextFree, free, addr);
        mem := mem[addr := nextFree];
        nextFree := addr;
        free := [addr] + free;
        i := i + 1;
      }
      chunks := chunks + [base];
      CountsAll(base, old(chunks), old(free));
    }

    /** The next block of the chunk is new. */
    lemma NotLinkedYet(i: nat, base: nat, was: seq<nat>)
      requires 2 <= n && i < CHUNK_OBJS && ChunksOk(chunks + [base], n)
      requires forall a | a in was :: a in AllBlocks(chunks, n)
      requires forall a :: a in free <==> a in was || exists k :: 0 <= k < i && a == BlockAt(base, k, n)
      ensures BlockAt(base, i, n) !in free && BlockAt(base, i, n) != 0
    {
      var addr := BlockAt(base, i, n);
      assert (chunks + [base])[|chunks|] == base;
      if addr in was {
        NewBlock(chunks, base, n, i, addr);
      }
      forall k | 0 <= k < i
        ensures BlockAt(base, k, n) != addr
      {
        SameChunkApart(base, k, i, n);
      }
    }

    lemma CountsAll(base: nat, before: seq<nat>, was: seq<nat>)
      requires 2 <= n && chunks == before + [base] && ChunksOk(chunks, n)
      requires forall a | a in was :: a !in live
      requires forall a :: a in AllBlocks(before, n) <==> a in was || a in live
      requires forall a :: a in free <==> a in was || exists k :: 0 <= k < CHUNK_OBJS && a == BlockAt(base, k, n)
      ensures forall a | a in free :: a !in live
      ensures forall a :: a in AllBlocks(chunks, n) <==> a in free || a in live
    {
      forall a
        ensures a in AllBlocks(chunks, n) <==> a in free || a in live
      {
        BlocksOfMore(before, base, n, a);
      }
      forall a | a in free
        ensures a !in live
      {
        if a !in was && a in live {
          var k :| 0 <= k < CHUNK_OBJS && a == BlockAt(base, k, n);
          NewBlock(before, base, n, k, a);
        }
      }
    }

    /** 0: the list is empty. */
    method TryPop() returns (addr: nat)
      requires Valid()
      modifies this
      ensures Valid() && chunks == old(chunks) && mem == old(mem)
      ensures addr == 0 <==> old(free) == []
      ensures addr == 0 ==> free == old(free) && live == old(live)
      ensures addr != 0 ==> addr !in old(live) && live == old(live) + {addr} && free == old(free)[1..]
    {
      Pop(mem, nextFree, free);
      if nextFree == 0 {
        return 0;
      }
      addr := nextFree;
      nextFree := mem[addr];
      assert forall a :: a in free <==> a == addr || a in free[1..];
      free := free[1..];
      live := live + {addr};
    }

    /** free by the owner. */
    method Free(addr: nat)
      requires Valid() && addr in live
      modifies this
      ensures Valid() && chunks == old(chunks) && live == old(live) - {addr} && free == [addr] + old(free)
    {
      NotNull(addr);
      Push(mem, nextFree, free, addr);
      mem := mem[addr := nextFree];
      nextFree := addr;
      free := [addr] + free;
      live := live - {addr};
    }

    lemma NotNull(addr: nat)
      requires ChunksOk(chunks, n) && addr in AllBlocks(chunks, n)
      ensures addr != 0
    {
      var c, i :| 0 <= c < |chunks| && 0 <= i < CHUNK_OBJS && BlockAt(chunks[c], i, n) == addr;
      BlockBounds(chunks[c], i, n);
    }

    /** base: the chunk that malloc would return now, used only when the list is empty. */
    method Allocate(base: nat) returns (addr: nat)
      requires Valid() && ChunksOk(chunks + [base], n)
      modifies this
      ensures Valid() && addr != 0 && addr !in old(live) && live == old(live) + {addr}
      ensures forall b | b in old(live) :: Apart(addr, b, n)
      ensures chunks == if old(free) == [] then old(chunks) + [base] else old(chunks)
    {
      addr := TryPop();
      if addr == 0 {
        AllocateNewChunk(base);
        addr := TryPop();
      }
      forall b | b in old(live)
        ensures Apart(addr, b, n)
      {
        BlocksApart(chunks, n, addr, b);
      }
    }

    /** An owner writes any word of its block, the first one included. */
    method OwnerWrite(addr: nat, k: nat, word: nat)
      requires Valid() && addr in live && k < n
      modifies this
      ensures Valid() && live == old(live) && free == old(free) && chunks == old(chunks) && nextFree == old(nextFree)
      ensures mem == old(mem)[addr + k := word]
    {
      forall a | a in free
        ensures a != addr + k
      {
        BlocksApart(chunks, n, addr, a);
      }
      ListKept(mem, mem[addr + k := word], nextFree, free);
      mem := mem[addr + k := word];
    }
  }
}
