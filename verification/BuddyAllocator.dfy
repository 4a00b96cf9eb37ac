/**
 The allocator object of mini_libc/src/malloc.c, changed in place: block headers in memory, the array
 of free-list heads and the pool bounds. Every method is proved to do what the function of the same
 meaning in BuddyHeap does.
 */
module BuddyAllocator {
  import opened Words
  import opened BuddyHeap

  lemma {:induction false} EndsLonger(h: Heap, a: int, n: nat, m: nat)
    requires Ends(h, a, n) && n <= m
    ensures Ends(h, a, m)
    decreases n
  {
    if a != 0 {
      EndsLonger(h, At(h, a).next, n - 1, m - 1);
    }
  }

  /** The list walk does not depend on how long a bound it is given. */
  lemma {:induction false} WalkUnbounded(h: Heap, order: nat, prev: int, target: int, n: nat, m: nat)
    requires order < |h.heads| && Ends(h, Link(h, order, prev), n) && n <= m
    ensures UnlinkFrom(h, order, prev, target, n) == UnlinkFrom(h, order, prev, target, m)
    decreases n
  {
    var cur := Link(h, order, prev);
    if cur != 0 && cur != target {
      WalkUnbounded(h, order, cur, target, n - 1, m - 1);
    }
  }

  lemma WalkIsUnlink(h: Heap, order: nat, target: int, n: nat)
    requires order < |h.heads| && Ends(h, h.heads[order], n)
    ensures Unlink(h, order, target) == UnlinkFrom(h, order, 0, target, n)
  {
    var k: nat :| Ends(h, h.heads[order], k) && Unlink(h, order, target) == UnlinkFrom(h, order, 0, target, k);
    if k <= n {
      WalkUnbounded(h, order, 0, target, k, n);
    } else {
      WalkUnbounded(h, order, 0, target, n, k);
    }
  }

  /** Taking a node out of a list leaves every list finite, even those sharing the node. */
  lemma {:induction false} SkipEnds(h: Heap, s: Heap, prev: int, a: int, n: nat)
    requires Ends(h, a, n) && At(h, prev).next != 0
    requires forall x :: x != prev ==> At(s, x).next == At(h, x).next
    requires At(s, prev).next == At(h, At(h, prev).next).next
    ensures Ends(s, a, n)
    decreases n
  {
    if a == prev && a != 0 {
      SkipEnds(h, s, prev, At(h, At(h, prev).next).next, n - 2);
      EndsLonger(s, At(s, prev).next, n - 2, n - 1);
    } else if a != 0 {
      SkipEnds(h, s, prev, At(h, a).next, n - 1);
    }
  }

  lemma {:induction false} SameNextEnds(h: Heap, s: Heap, a: int, n: nat)
    requires Ends(h, a, n) && forall x :: At(s, x).next == At(h, x).next
    ensures Ends(s, a, n)
    decreases n
  {
    if a != 0 {
      SameNextEnds(h, s, At(h, a).next, n - 1);
    }
  }

  lemma SameNextListsEnd(h: Heap, s: Heap)
    requires ListsEnd(h) && s.heads == h.heads && forall x :: At(s, x).next == At(h, x).next
    ensures ListsEnd(s)
  {
    forall o | 0 <= o < MAX_ORDER ensures Finite(s, s.heads[o]) {
      assert Finite(h, h.heads[o]);
      var n: nat :| Ends(h, h.heads[o], n);
      SameNextEnds(h, s, s.heads[o], n);
    }
  }

  lemma SetLinkListsEnd(h: Heap, order: nat, prev: int, target: int)
    requires ListsEnd(h) && order < MAX_ORDER && Link(h, order, prev) == target != 0
    ensures ListsEnd(SetLink(h, order, prev, At(h, target).next))
  {
    var s := SetLink(h, order, prev, At(h, target).next);
    forall o | 0 <= o < MAX_ORDER ensures Finite(s, s.heads[o]) {
      assert Finite(h, h.heads[o]);
      var n: nat :| Ends(h, h.heads[o], n);
      if prev != 0 {
        SkipEnds(h, s, prev, h.heads[o], n);
        assert Ends(s, s.heads[o], n);
      } else if o == order {
        SameNextEnds(h, s, At(h, target).next, n - 1);
        assert Ends(s, s.heads[o], n - 1);
      } else {
        SameNextEnds(h, s, h.heads[o], n);
        assert Ends(s, s.heads[o], n);
      }
    }
  }

  class Allocator {
    var headers: map<int, Header>
    const freeLists: array<int>
    const heapStart: int
    const heapSize: nat

    ghost function View(): Heap
      reads this, freeLists
    {
      Heap(headers, freeLists[..], heapStart, heapSize)
    }

    function HeaderAt(a: int): (r: Header)
      reads this`headers, freeLists
      ensures r == At(View(), a)
    {
      if a in headers then headers[a] else Header(0, 0, false, 0, 0)
    }

    /** buddy_init, over the pool that mmap placed at `start`. */
    constructor (start: int, initialSize: nat)
      requires GetOrder(if initialSize < MIN_BLOCK_SIZE then MIN_BLOCK_SIZE else initialSize) < MAX_ORDER
      ensures fresh(freeLists) && View() == BuddyInit(start, initialSize)
    {
      var size := if initialSize < MIN_BLOCK_SIZE then MIN_BLOCK_SIZE else initialSize;
      var order := OrderFor(size);
      heapStart, heapSize := start, size;
      headers := map[start := Header(size - HEADER_SIZE, order, true, 0, 0)];
      freeLists := new int[MAX_ORDER](_ => 0);
      new;
      freeLists[order] := start;
      assert freeLists[..] == BuddyInit(start, initialSize).heads;
    }

    /** get_order */
    static method OrderFor(size: nat) returns (order: nat)
      ensures order == GetOrder(size)
    {
      order := 0;
      var blockSize := MIN_BLOCK_SIZE;
      while blockSize < size && order < MAX_ORDER
        invariant order <= MAX_ORDER && blockSize == Bytes(order)
        invariant GetOrderFrom(order, size) == GetOrder(size)
        decreases MAX_ORDER - order
      {
        blockSize := blockSize * 2;
        order := order + 1;
      }
    }

    /** split_block */
    method Split(block: int, target: nat)
      requires freeLists.Length == MAX_ORDER && HeaderAt(block).order <= MAX_ORDER
      modifies this`headers, freeLists
      ensures View() == SplitBlock(old(View()), block, target)
    {
      while HeaderAt(block).order > target
        invariant HeaderAt(block).order <= MAX_ORDER
        invariant SplitBlock(View(), block, target) == SplitBlock(old(View()), block, target)
        decreases HeaderAt(block).order
      {
        ghost var before := View();
        var order := HeaderAt(block).order - 1;
        var size := Bytes(order);
        var buddy := block + size;
        if buddy + size > heapStart + heapSize {
          break;
        }
        headers := headers[block := HeaderAt(block).(size := size - HEADER_SIZE, order := order, buddy := buddy)];
        headers := headers[buddy := Header(size - HEADER_SIZE, order, true, freeLists[order], block)];
        freeLists[order] := buddy;
        assert View() == SplitOnce(before, block);
      }
    }

    /** The walk of merge_blocks along one free list, taking `target` off it. */
    method TakeOff(order: nat, target: int)
      requires order < freeLists.Length == MAX_ORDER && ListsEnd(View())
      modifies this`headers, freeLists
      ensures View() == Unlink(old(View()), order, target) && ListsEnd(View())
    {
      ghost var h := View();
      assert Finite(h, h.heads[order]);
      ghost var n: nat :| Ends(h, h.heads[order], n);
      WalkIsUnlink(h, order, target, n);
      var prev := 0;
      var cur := freeLists[order];
      while cur != 0 && cur != target
        invariant View() == h && cur == Link(h, order, prev) && Ends(h, cur, n)
        invariant UnlinkFrom(h, order, prev, target, n) == Unlink(h, order, target)
        decreases n
      {
        prev := cur;
        cur := HeaderAt(cur).next;
        n := n - 1;
      }
      if cur != 0 {
        SetLinkListsEnd(h, order, prev, target);
        if prev == 0 {
          freeLists[order] := HeaderAt(target).next;
        } else {
          headers := headers[prev := HeaderAt(prev).(next := HeaderAt(target).next)];
        }
        assert View() == SetLink(h, order, prev, At(h, target).next);
      }
    }

    /** One merge: takes the right block off its list and widens the left one over it. */
    method Absorb(block: int, buddy: int)
      requires freeLists.Length == MAX_ORDER && HeaderAt(buddy).order < MAX_ORDER && ListsEnd(View())
      modifies this`headers, freeLists
      ensures View() == Grown(Unlink(old(View()), old(HeaderAt(buddy).order), buddy), block)
      ensures ListsEnd(View()) && HeaderAt(block).order == old(HeaderAt(block).order) + 1
    {
      TakeOff(HeaderAt(buddy).order, buddy);
      ghost var h := View();
      var order := HeaderAt(block).order + 1;
      var right := block + Bytes(order);
      headers := headers[block := HeaderAt(block).(order := order, size := Bytes(order) - HEADER_SIZE,
                                    buddy := if right < heapStart + heapSize then right else 0)];
      SameNextListsEnd(h, View());
    }

    /** merge_blocks */
    method Merge(start: int)
      requires freeLists.Length == MAX_ORDER && HeaderAt(start).order < MAX_ORDER && ListsEnd(View())
      modifies this`headers, freeLists
      ensures View() == MergeBlocks(old(View()), start)
    {
      var block := start;
      while HeaderAt(block).order < MAX_ORDER - 1
        invariant HeaderAt(block).order < MAX_ORDER && ListsEnd(View())
        invariant MergeBlocks(View(), block) == MergeBlocks(old(View()), start)
        decreases MAX_ORDER - HeaderAt(block).order
      {
        var buddy := HeaderAt(block).buddy;
        if buddy == 0 || !HeaderAt(buddy).isFree || HeaderAt(buddy).order != HeaderAt(block).order {
          break;
        }
        var size := Bytes(HeaderAt(block).order);
        if buddy < block {
          block, buddy := buddy, block;
        }
        if buddy != block + size {
          break;
        }
        Absorb(block, buddy);
      }
      var order := HeaderAt(block).order;
      headers := headers[block := HeaderAt(block).(next := freeLists[order])];
      freeLists[order] := block;
    }

    /** malloc */
    method Malloc(size: nat) returns (ptr: int)
      requires HeadsSane(View())
      modifies this`headers, freeLists
      ensures (View(), ptr) == BuddyHeap.Malloc(old(View()), size)
    {
      var total := (size + HEADER_SIZE) % WORD;
      if total > heapSize {
        return 0;
      }
      var order := OrderFor(total);
      var current := order;
      var block := 0;
      while current < MAX_ORDER
        invariant order <= current && block == 0
        invariant order < MAX_ORDER ==> FindOrder(freeLists[..], current) == FindOrder(freeLists[..], order)
        invariant unchanged(this) && unchanged(freeLists)
      {
        if freeLists[current] != 0 {
          block := freeLists[current];
          freeLists[current] := HeaderAt(block).next;
          break;
        }
        current := current + 1;
      }
      if block == 0 {
        return 0;
      }
      if current > order {
        Split(block, order);
      }
      headers := headers[block := HeaderAt(block).(isFree := false, next := 0)];
      return block + HEADER_SIZE;
    }

    /** free */
    method Free(ptr: int)
      requires freeLists.Length == MAX_ORDER && HeaderAt(ptr - HEADER_SIZE).order < MAX_ORDER && ListsEnd(View())
      modifies this`headers, freeLists
      ensures View() == BuddyHeap.Free(old(View()), ptr)
    {
      if ptr == 0 {
        return;
      }
      var block := ptr - HEADER_SIZE;
      headers := headers[block := HeaderAt(block).(isFree := true)];
      SameNextListsEnd(old(View()), View());
      Merge(block);
    }
  }
}
