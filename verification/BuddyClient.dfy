/** A caller of the allocator object that frees in reverse order of allocation. */
module BuddyClient {
  import opened BuddyHeap
  import opened BuddyPool
  import opened BuddyRuns
  import opened BuddyAnyOrder
  import opened BuddyAllocator

  /** Every free list of a heap that stands for a pool is finite, so merge_blocks returns. */
  lemma ListsAreFinite(h: Heap, p: Pool)
    requires Represents(h, p)
    ensures ListsEnd(h)
  {
    forall o: nat | o < MAX_ORDER ensures Finite(h, h.heads[o]) {
      assert ListHeld(h, p, p.lists[o], o);
      ChainEnds(h, h.heads[o], p.lists[o], 0);
      assert p.lists[o] != [] ==> p.lists[o][0] == h.heads[o];
    }
  }

  /** Whatever was live before, malloc followed by free leaves the object standing for the same pool:
      the same free lists in the same order and the same live blocks. */
  method MallocThenFree(allocator: Allocator, ghost p: Pool, size: nat) returns (served: bool)
    requires PoolOk(p) && p.lifo && Represents(allocator.View(), p)
    modifies allocator`headers, allocator.freeLists
    ensures Represents(allocator.View(), p)
    ensures served <==> Room(p, size)
  {
    MallocGrants(allocator.View(), p, size);
    var ptr := allocator.Malloc(size);
    served := ptr != 0;
    if served {
      FreeUndoes(allocator.View(), p, size);
      ListsAreFinite(allocator.View(), Grant(p, size));
      allocator.Free(ptr);
    }
  }

  /** Any number of nested allocations, freed youngest first, restores the pool. */
  method Nest(allocator: Allocator, ghost p: Pool, sizes: seq<nat>)
    requires PoolOk(p) && p.lifo && Represents(allocator.View(), p)
    modifies allocator`headers, allocator.freeLists
    ensures Represents(allocator.View(), p)
    decreases |sizes|
  {
    if sizes == [] {
      return;
    }
    MallocGrants(allocator.View(), p, sizes[0]);
    var ptr := allocator.Malloc(sizes[0]);
    if ptr == 0 {
      return;
    }
    GrantOk(p, sizes[0]);
    Nest(allocator, Grant(p, sizes[0]), sizes[1..]);
    FreeUndoes(allocator.View(), p, sizes[0]);
    ListsAreFinite(allocator.View(), Grant(p, sizes[0]));
    allocator.Free(ptr);
  }
}
