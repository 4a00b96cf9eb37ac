/**
 Frees in any order, on any heap whose free lists are sound. Freeing a block keeps them sound exactly
 when the block's recorded buddy is not a free block of its order to the left: the swap of
 merge_blocks widens the left block while it is still on the list of its old order.
 */
module BuddyAnyOrder {
  import opened Sequences
  import opened BuddyHeap
  import opened BuddyRuns

  /** The free lists are finite chains, each of headers of its own order. */
  ghost predicate Sorted(h: Heap, lists: seq<seq<int>>) {
    |h.heads| == MAX_ORDER && |lists| == MAX_ORDER && SortedFrom(h, lists, 0)
  }

  ghost predicate SortedFrom(h: Heap, lists: seq<seq<int>>, from: nat)
    requires |h.heads| == MAX_ORDER && |lists| == MAX_ORDER
  {
    forall o :: from <= o < MAX_ORDER ==> SortedList(h, h.heads[o], lists[o], o)
  }

  ghost predicate SortedList(h: Heap, head: int, l: seq<int>, o: nat) {
    IsChain(h, head, l) && forall i :: 0 <= i < |l| ==> At(h, l[i]).order == o
  }

  ghost predicate Sound(h: Heap) { exists lists :: Sorted(h, lists) }

  predicate Unlisted(lists: seq<seq<int>>, a: int) {
    forall o :: 0 <= o < |lists| ==> a !in lists[o]
  }

  // ---------------------------------------------------------------- chains

  lemma {:induction false} NoRepeats(h: Heap, head: int, l: seq<int>, i: nat, j: nat)
    requires IsChain(h, head, l) && i < j < |l|
    ensures l[i] != l[j]
    decreases |l| - j
  {
    assert ChainLink(h, l, i) && ChainLink(h, l, j) && ChainLink(h, l, i + 1);
    if j + 1 < |l| {
      NoRepeats(h, head, l, i + 1, j + 1);
    }
  }

  lemma {:induction false} ChainEnds(h: Heap, head: int, l: seq<int>, k: nat)
    requires IsChain(h, head, l) && k <= |l|
    ensures Ends(h, if k < |l| then l[k] else 0, |l| - k)
    decreases |l| - k
  {
    if k < |l| {
      assert ChainLink(h, l, k);
      ChainEnds(h, head, l, k + 1);
    }
  }

  /** A chain is determined by where it starts. */
  lemma {:induction false} SameChain(h: Heap, head: int, l: seq<int>, m: seq<int>)
    requires IsChain(h, head, l) && IsChain(h, head, m)
    ensures l == m
    decreases |l|
  {
    if l != [] && m != [] {
      assert ChainLink(h, l, 0) && ChainLink(h, m, 0);
      TailChain(h, head, l);
      TailChain(h, head, m);
      SameChain(h, At(h, head).next, l[1..], m[1..]);
      assert l == [l[0]] + l[1..] && m == [m[0]] + m[1..];
    } else {
      assert l != [] ==> ChainLink(h, l, 0);
      assert m != [] ==> ChainLink(h, m, 0);
    }
  }

  lemma TailChain(h: Heap, head: int, l: seq<int>)
    requires IsChain(h, head, l) && l != []
    ensures IsChain(h, At(h, head).next, l[1..])
  {
    assert ChainLink(h, l, 0);
    forall i | 0 <= i < |l| - 1 ensures ChainLink(h, l[1..], i) {
      assert ChainLink(h, l, i + 1);
    }
  }

  lemma SameLists(h: Heap, lists: seq<seq<int>>, lists': seq<seq<int>>)
    requires Sorted(h, lists) && Sorted(h, lists')
    ensures lists == lists'
  {
    forall o | 0 <= o < MAX_ORDER ensures lists[o] == lists'[o] {
      assert SortedList(h, h.heads[o], lists[o], o) && SortedList(h, h.heads[o], lists'[o], o);
      SameChain(h, h.heads[o], lists[o], lists'[o]);
    }
  }

  function Before(l: seq<int>, k: nat): int
    requires k <= |l|
  {
    if k == 0 then 0 else l[k - 1]
  }

  lemma LinkAt(h: Heap, o: nat, l: seq<int>, k: nat)
    requires o < |h.heads| && IsChain(h, h.heads[o], l) && k <= |l|
    ensures Link(h, o, Before(l, k)) == if k < |l| then l[k] else 0
  {
    if k > 0 {
      assert ChainLink(h, l, k - 1);
    }
  }

  /** The pointer to target in list o now points past it. */
  ghost predicate TakenOff(h: Heap, s: Heap, o: nat, l: seq<int>, target: int)
    requires o < |h.heads|
  {
    exists i :: 0 <= i < |l| && l[i] == target && s == SetLink(h, o, Before(l, i), At(h, target).next)
  }

  lemma {:induction false} WalkAlong(h: Heap, o: nat, l: seq<int>, k: nat, target: int, n: nat)
    requires o < |h.heads| && IsChain(h, h.heads[o], l) && k <= |l| && target !in l[..k]
    requires Ends(h, if k < |l| then l[k] else 0, n)
    ensures target !in l ==> UnlinkFrom(h, o, Before(l, k), target, n) == h
    ensures target in l ==> TakenOff(h, UnlinkFrom(h, o, Before(l, k), target, n), o, l, target)
    decreases |l| - k
  {
    LinkAt(h, o, l, k);
    if k < |l| {
      assert ChainLink(h, l, k);
      if l[k] != target {
        WalkAlong(h, o, l, k + 1, target, n - 1);
      }
    }
  }

  lemma UnlinkWalks(h: Heap, o: nat, l: seq<int>, target: int)
    requires o < |h.heads| && IsChain(h, h.heads[o], l)
    ensures target !in l ==> Unlink(h, o, target) == h
    ensures target in l ==> TakenOff(h, Unlink(h, o, target), o, l, target)
  {
    ChainEnds(h, h.heads[o], l, 0);
    assert Finite(h, h.heads[o]);
    var n: nat :| Ends(h, h.heads[o], n) && Unlink(h, o, target) == UnlinkFrom(h, o, 0, target, n);
    assert l != [] ==> l[0] == h.heads[o];
    WalkAlong(h, o, l, 0, target, n);
  }

  lemma UnlinkedList(h: Heap, o: nat, l: seq<int>, i: nat)
    requires o < |h.heads| && i < |l| && SortedList(h, h.heads[o], l, o)
    ensures var s := SetLink(h, o, Before(l, i), At(h, l[i]).next);
            SortedList(s, s.heads[o], Without(l, i), o)
  {
    var s, m := SetLink(h, o, Before(l, i), At(h, l[i]).next), Without(l, i);
    assert ChainLink(h, l, i) && ChainLink(h, l, 0);
    assert i > 0 ==> ChainLink(h, l, i - 1);
    assert s.heads[o] == if m == [] then 0 else m[0];
    forall k | 0 <= k < |m| ensures ChainLink(s, m, k) && At(s, m[k]).order == o {
      var j := if k < i then k else k + 1;
      assert m[k] == l[j] && ChainLink(h, l, j);
      assert k + 1 < |m| ==> m[k + 1] == if k + 1 < i then l[k + 1] else l[k + 2];
      if i > 0 && j < i - 1 {
        NoRepeats(h, h.heads[o], l, j, i - 1);
      } else if i > 0 && j > i - 1 {
        NoRepeats(h, h.heads[o], l, i - 1, j);
      }
    }
  }

  // ---------------------------------------------------------------- frees that keep the lists sound

  lemma KeepSorted(h: Heap, s: Heap, l: seq<int>, o: nat)
    requires o < |h.heads| == |s.heads| && SortedList(h, h.heads[o], l, o) && s.heads[o] == h.heads[o]
    requires forall k :: 0 <= k < |l| ==> At(s, l[k]) == At(h, l[k])
    ensures SortedList(s, s.heads[o], l, o)
  {
    forall k | 0 <= k < |l| ensures ChainLink(s, l, k) {
      assert ChainLink(h, l, k);
    }
  }

  lemma WithoutSorted(h: Heap, lists: seq<seq<int>>, o: nat, i: nat)
    requires Sorted(h, lists) && o < MAX_ORDER && i < |lists[o]|
    ensures Sorted(SetLink(h, o, Before(lists[o], i), At(h, lists[o][i]).next), lists[o := Without(lists[o], i)])
  {
    var l, s := lists[o], SetLink(h, o, Before(lists[o], i), At(h, lists[o][i]).next);
    assert SortedList(h, h.heads[o], l, o);
    UnlinkedList(h, o, l, i);
    assert i > 0 ==> ChainLink(h, l, i - 1) && At(h, l[i - 1]).order == o;
    forall m: nat | m < MAX_ORDER && m != o ensures SortedList(s, s.heads[m], lists[m], m) {
      assert SortedList(h, h.heads[m], lists[m], m);
      KeepSorted(h, s, lists[m], m);
    }
  }

  /** Taking a block off its list leaves all lists sorted. */
  lemma UnlinkSorted(h: Heap, lists: seq<seq<int>>, o: nat, target: int) returns (lists': seq<seq<int>>)
    requires Sorted(h, lists) && o < MAX_ORDER
    ensures Sorted(Unlink(h, o, target), lists')
    ensures forall a :: Unlisted(lists, a) ==> Unlisted(lists', a)
    ensures forall m: nat, a :: m < MAX_ORDER && a in lists[m] && a != target ==> a in lists'[m]
  {
    var l := lists[o];
    assert SortedList(h, h.heads[o], l, o);
    UnlinkWalks(h, o, l, target);
    if target !in l {
      return lists;
    }
    var i :| 0 <= i < |l| && l[i] == target && Unlink(h, o, target) == SetLink(h, o, Before(l, i), At(h, target).next);
    WithoutSorted(h, lists, o, i);
    lists' := lists[o := Without(l, i)];
    forall a | Unlisted(lists, a) ensures Unlisted(lists', a) {
      assert a !in lists[o];
    }
    OthersStay(l, i);
  }

  lemma OthersStay(l: seq<int>, i: nat)
    requires i < |l|
    ensures forall a :: a in l && a != l[i] ==> a in Without(l, i)
  {
    forall a | a in l && a != l[i] ensures a in Without(l, i) {
      var k :| 0 <= k < |l| && l[k] == a;
      assert Without(l, i)[if k < i then k else k - 1] == a;
    }
  }

  lemma OffListsSorted(h: Heap, lists: seq<seq<int>>, a: int, header: Header)
    requires Sorted(h, lists) && Unlisted(lists, a)
    ensures Sorted(Put(h, a, header), lists)
  {
    var s := Put(h, a, header);
    forall o: nat | o < MAX_ORDER ensures SortedList(s, s.heads[o], lists[o], o) {
      assert SortedList(h, h.heads[o], lists[o], o);
      KeepSorted(h, s, lists[o], o);
    }
  }

  lemma PushSorted(h: Heap, lists: seq<seq<int>>, a: int) returns (lists': seq<seq<int>>)
    requires Sorted(h, lists) && Unlisted(lists, a) && a != 0 && At(h, a).order < MAX_ORDER
    ensures Sorted(Push(h, a), lists')
    ensures a in lists'[At(h, a).order] && forall m: nat, x :: m < MAX_ORDER && x in lists[m] ==> x in lists'[m]
  {
    var s, order := Push(h, a), At(h, a).order;
    lists' := lists[order := [a] + lists[order]];
    forall o | 0 <= o < MAX_ORDER ensures SortedList(s, s.heads[o], lists'[o], o) {
      assert SortedList(h, h.heads[o], lists[o], o) && a !in lists[o];
      forall k | 0 <= k < |lists'[o]| ensures ChainLink(s, lists'[o], k) {
        if o != order {
          assert ChainLink(h, lists[o], k);
        } else if k > 0 {
          assert ChainLink(h, lists[o], k - 1);
        }
      }
    }
  }

  /** The recorded buddy is a free block of the same order to the left: the swap branch. */
  predicate LeftBuddyFree(h: Heap, block: int) {
    CanMerge(h, block) && At(h, block).buddy < block
  }

  /** Where the block that merge_blocks puts on a list starts. */
  function LeftEdge(h: Heap, block: int): int {
    if LeftBuddyFree(h, block) then At(h, block).buddy else block
  }

  /** The swap finds a block that is still on its list, which merge_blocks does not take off. */
  predicate SwapsListed(h: Heap, lists: seq<seq<int>>, block: int)
    requires |lists| == MAX_ORDER
  {
    LeftBuddyFree(h, block) && At(h, block).buddy in lists[At(h, block).order]
  }

  lemma UnlistedElsewhere(h: Heap, lists: seq<seq<int>>, a: int)
    requires Sorted(h, lists) && At(h, a).order < MAX_ORDER && a !in lists[At(h, a).order]
    ensures Unlisted(lists, a)
  {
    forall o | 0 <= o < |lists| ensures a !in lists[o] {
      assert SortedList(h, h.heads[o], lists[o], o);
    }
  }

  lemma {:induction false} NoSwapKeepsSorted(h: Heap, lists: seq<seq<int>>, block: int)
    returns (lists': seq<seq<int>>)
    requires Sorted(h, lists) && Unlisted(lists, block) && block != 0 && At(h, block).order < MAX_ORDER
    requires !SwapsListed(h, lists, block)
    ensures Sorted(MergeBlocks(h, block), lists')
    ensures exists m: nat :: m < MAX_ORDER && LeftEdge(h, block) in lists'[m]
    ensures forall m: nat, a :: m < MAX_ORDER && a in lists[m] && a < LeftEdge(h, block) ==> a in lists'[m]
    decreases MAX_ORDER - At(h, block).order
  {
    var order, buddy := At(h, block).order, At(h, block).buddy;
    var lo, hi := if buddy < block then buddy else block, if buddy < block then block else buddy;
    if !CanMerge(h, block) {
      lists' := PushSorted(h, lists, block);
    } else {
      if lo == buddy {
        UnlistedElsewhere(h, lists, lo);
      }
      if !Adjacent(lo, hi, order) {
        lists' := PushSorted(h, lists, lo);
      } else {
        lists' := UnlinkSorted(h, lists, order, hi);
        var u := Unlink(h, order, hi);
        OffListsSorted(u, lists', lo, At(Grown(u, lo), lo));
        lists' := NoSwapKeepsSorted(Grown(u, lo), lists', lo);
      }
    }
  }

  // ---------------------------------------------------------------- the swap

  /** Merging touches only the lists and headers of the block's order and above. */
  ghost predicate OnlyAbove(h: Heap, s: Heap, order: nat) {
    && |s.heads| == |h.heads|
    && (forall o :: 0 <= o < order && o < |h.heads| ==> s.heads[o] == h.heads[o])
    && (forall a :: At(h, a).order < order ==> At(s, a) == At(h, a))
    && (forall a :: At(h, a).order >= order ==> At(s, a).order >= order)
  }

  lemma UnlinkOnlyAbove(h: Heap, lists: seq<seq<int>>, o: nat, target: int)
    requires |h.heads| == MAX_ORDER && |lists| == MAX_ORDER && o < MAX_ORDER && SortedFrom(h, lists, o)
    ensures OnlyAbove(h, Unlink(h, o, target), o) && SortedFrom(Unlink(h, o, target), lists, o + 1)
  {
    var l, s := lists[o], Unlink(h, o, target);
    assert SortedList(h, h.heads[o], l, o);
    UnlinkWalks(h, o, l, target);
    if target in l {
      var i :| 0 <= i < |l| && l[i] == target && s == SetLink(h, o, Before(l, i), At(h, target).next);
      assert i > 0 ==> ChainLink(h, l, i - 1) && At(h, l[i - 1]).order == o;
    }
    forall m: nat | o < m < MAX_ORDER ensures SortedList(s, s.heads[m], lists[m], m) {
      assert SortedList(h, h.heads[m], lists[m], m);
      KeepSorted(h, s, lists[m], m);
    }
  }

  lemma GrownOnlyAbove(h: Heap, lists: seq<seq<int>>, lo: int)
    requires |h.heads| == MAX_ORDER && |lists| == MAX_ORDER && SortedFrom(h, lists, At(h, lo).order + 1)
    ensures OnlyAbove(h, Grown(h, lo), At(h, lo).order) && SortedFrom(Grown(h, lo), lists, At(h, lo).order + 1)
  {
    var s := Grown(h, lo);
    forall m: nat | At(h, lo).order < m < MAX_ORDER ensures SortedList(s, s.heads[m], lists[m], m) {
      assert SortedList(h, h.heads[m], lists[m], m);
      KeepSorted(h, s, lists[m], m);
    }
  }

  lemma OnlyAboveTransitive(h: Heap, s: Heap, t: Heap, order: nat, above: nat)
    requires OnlyAbove(h, s, order) && OnlyAbove(s, t, above) && order <= above
    ensures OnlyAbove(h, t, order)
  {
    forall a | At(h, a).order >= order ensures At(t, a).order >= order {
      assert At(s, a).order >= order;
    }
  }

  lemma MergeOnceAbove(h: Heap, lists: seq<seq<int>>, order: nat, lo: int, hi: int)
    requires |h.heads| == MAX_ORDER && |lists| == MAX_ORDER && order < MAX_ORDER && At(h, lo).order == order
    requires SortedFrom(h, lists, order)
    ensures OnlyAbove(h, Grown(Unlink(h, order, hi), lo), order)
    ensures SortedFrom(Grown(Unlink(h, order, hi), lo), lists, order + 1)
  {
    var u := Unlink(h, order, hi);
    UnlinkOnlyAbove(h, lists, order, hi);
    GrownOnlyAbove(u, lists, lo);
    OnlyAboveTransitive(h, u, Grown(u, lo), order, order);
  }

  lemma {:induction false} MergeOnlyAbove(h: Heap, lists: seq<seq<int>>, block: int)
    requires |h.heads| == MAX_ORDER && |lists| == MAX_ORDER && At(h, block).order < MAX_ORDER
    requires SortedFrom(h, lists, At(h, block).order)
    ensures OnlyAbove(h, MergeBlocks(h, block), At(h, block).order)
    decreases MAX_ORDER - At(h, block).order
  {
    var order, buddy := At(h, block).order, At(h, block).buddy;
    var lo, hi := if buddy < block then buddy else block, if buddy < block then block else buddy;
    if CanMerge(h, block) && Adjacent(lo, hi, order) {
      var g := Grown(Unlink(h, order, hi), lo);
      MergeOnceAbove(h, lists, order, lo, hi);
      MergeOnlyAbove(g, lists, lo);
      OnlyAboveTransitive(h, g, MergeBlocks(g, lo), order, order + 1);
    }
  }

  /** A chain through an address whose header has another order cannot be sorted. */
  lemma {:induction false} StrayUnsorted(h: Heap, s: Heap, o: nat, l: seq<int>, i: nat, m: seq<int>, k: nat)
    requires o < |h.heads| == |s.heads| && IsChain(h, h.heads[o], l) && i < |l| && s.heads[o] == h.heads[o]
    requires forall j :: 0 <= j < i ==> At(s, l[j]) == At(h, l[j])
    requires At(s, l[i]).order != o && k <= i
    requires SortedList(s, s.heads[o], m, o) && k < |m| && m[k] == l[k]
    ensures false
    decreases i - k
  {
    if k < i {
      assert ChainLink(h, l, k) && ChainLink(s, m, k) && ChainLink(h, l, k + 1);
      StrayUnsorted(h, s, o, l, i, m, k + 1);
    }
  }

  /** A list pushed onto itself is a cycle. */
  lemma {:induction false} CycleUnsorted(h: Heap, s: Heap, o: nat, l: seq<int>, i: nat, m: seq<int>, k: nat)
    requires o < |h.heads| == |s.heads| && IsChain(h, h.heads[o], l) && i < |l|
    requires s == Put(h, l[i], At(h, l[i]).(next := h.heads[o])).(heads := h.heads[o := l[i]])
    requires SortedList(s, s.heads[o], m, o) && k <= i && k + 1 < |m| && m[k + 1] == l[k]
    ensures false
    decreases i - k
  {
    assert ChainLink(s, m, k + 1) && ChainLink(h, l, k) && m[0] == l[i];
    if k < i {
      NoRepeats(h, h.heads[o], l, k, i);
      assert ChainLink(h, l, k + 1);
      CycleUnsorted(h, s, o, l, i, m, k + 1);
    } else {
      NoRepeats(s, s.heads[o], m, 0, k + 1);
    }
  }

  /** An adjacent left buddy is widened while it stays on its old list. */
  lemma SwapLeavesStray(h: Heap, lists: seq<seq<int>>, block: int, i: nat, ms: seq<seq<int>>)
    requires Sorted(h, lists) && Unlisted(lists, block) && At(h, block).order < MAX_ORDER && LeftBuddyFree(h, block)
    requires var o, lo := At(h, block).order, At(h, block).buddy;
             Adjacent(lo, block, o) && i < |lists[o]| && lists[o][i] == lo
    ensures !Sorted(MergeBlocks(h, block), ms)
  {
    var o, lo, s := At(h, block).order, At(h, block).buddy, MergeBlocks(h, block);
    var l := lists[o];
    assert SortedList(h, h.heads[o], l, o) && block !in l;
    UnlinkWalks(h, o, l, block);
    GrownOnlyAbove(h, lists, lo);
    MergeOnlyAbove(Grown(h, lo), lists, lo);
    StrayAfter(h, Grown(h, lo), s, o, l, i);
    if Sorted(s, ms) {
      assert SortedList(s, s.heads[o], ms[o], o);
      assert ChainLink(h, l, 0);
      StrayUnsorted(h, s, o, l, i, ms[o], 0);
    }
  }

  lemma StrayAfter(h: Heap, g: Heap, s: Heap, o: nat, l: seq<int>, i: nat)
    requires o < |h.heads| && SortedList(h, h.heads[o], l, o) && i < |l|
    requires g == Grown(h, l[i]) && OnlyAbove(g, s, o + 1)
    ensures |s.heads| == |h.heads| && s.heads[o] == h.heads[o] && At(s, l[i]).order != o
    ensures forall j :: 0 <= j < i ==> At(s, l[j]) == At(h, l[j])
  {
    forall j | 0 <= j < i ensures At(s, l[j]) == At(h, l[j]) {
      NoRepeats(h, h.heads[o], l, j, i);
      assert At(g, l[j]) == At(h, l[j]);
    }
    assert At(g, l[i]).order == o + 1;
  }

  /** A left buddy that is not adjacent is pushed onto the list it is already on. */
  lemma SwapMakesCycle(h: Heap, lists: seq<seq<int>>, block: int, i: nat, ms: seq<seq<int>>)
    requires Sorted(h, lists) && At(h, block).order < MAX_ORDER && LeftBuddyFree(h, block)
    requires var o, lo := At(h, block).order, At(h, block).buddy;
             !Adjacent(lo, block, o) && i < |lists[o]| && lists[o][i] == lo
    ensures !Sorted(MergeBlocks(h, block), ms)
  {
    var o, lo, s := At(h, block).order, At(h, block).buddy, MergeBlocks(h, block);
    assert SortedList(h, h.heads[o], lists[o], o);
    assert ChainLink(h, lists[o], 0) && ChainLink(h, lists[o], i);
    assert s == Push(h, lo);
    if Sorted(s, ms) {
      assert SortedList(s, s.heads[o], ms[o], o);
      assert ms[o] != [] && ms[o][0] == lo && ChainLink(s, ms[o], 0);
      CycleUnsorted(h, s, o, lists[o], i, ms[o], 0);
    }
  }

  lemma SwapBreaksLists(h: Heap, lists: seq<seq<int>>, block: int)
    requires Sorted(h, lists) && Unlisted(lists, block) && At(h, block).order < MAX_ORDER
    requires LeftBuddyFree(h, block) && At(h, block).buddy in lists[At(h, block).order]
    ensures !Sound(MergeBlocks(h, block))
  {
    var o, lo := At(h, block).order, At(h, block).buddy;
    var i :| 0 <= i < |lists[o]| && lists[o][i] == lo;
    forall ms ensures !Sorted(MergeBlocks(h, block), ms) {
      if Adjacent(lo, block, o) {
        SwapLeavesStray(h, lists, block, i, ms);
      } else {
        SwapMakesCycle(h, lists, block, i, ms);
      }
    }
  }

  /** free, in any order and on any heap with sound lists: the lists stay sound exactly when the left
      buddy of the freed block is not a listed free block. */
  lemma FreeKeepsListsSound(h: Heap, lists: seq<seq<int>>, ptr: int)
    requires Sorted(h, lists) && ptr != 0 && ptr != HEADER_SIZE
    requires Unlisted(lists, ptr - HEADER_SIZE) && At(h, ptr - HEADER_SIZE).order < MAX_ORDER
    ensures var freed := Put(h, ptr - HEADER_SIZE, At(h, ptr - HEADER_SIZE).(isFree := true));
            Sound(Free(h, ptr)) <==> !SwapsListed(freed, lists, ptr - HEADER_SIZE)
  {
    var block := ptr - HEADER_SIZE;
    var freed := Put(h, block, At(h, block).(isFree := true));
    OffListsSorted(h, lists, block, At(freed, block));
    if SwapsListed(freed, lists, block) {
      SwapBreaksLists(freed, lists, block);
    } else {
      var lists' := NoSwapKeepsSorted(freed, lists, block);
    }
  }
}
