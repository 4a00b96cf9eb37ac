/**
 Freeing a block of a tiled pool whatever is live around it. As long as merge_blocks does not find a free
 left buddy, its merges join neighbours, and the heap goes on standing for a tiled pool, although the
 buddy fields of merged blocks are not those of a buddy system.
 */
module BuddyFrees {
  import opened Sequences
  import opened BuddyHeap
  import opened BuddyPool
  import opened BuddyRuns
  import opened BuddyAnyOrder

  /** The pool with one more free block in front of its list. */
  function Pushed(p: Pool, a: int, o: nat): Pool
    requires o < |p.lists|
  {
    p.(lists := p.lists[o := [a] + p.lists[o]])
  }

  /** Block `a` of order o is free and on no list; with it the pool is tiled. */
  ghost predicate Loose(h: Heap, p: Pool, a: int, o: nat) {
    && !p.lifo && |p.lists| == MAX_ORDER && o < MAX_ORDER && Tiled(Pushed(p, a, o))
    && Represents(h, p) && FreeHeader(h, p, a, o)
  }

  lemma PushedBlocks(p: Pool, a: int, o: nat)
    requires o < |p.lists|
    ensures forall x, m: nat :: FreeAt(Pushed(p, a, o), x, m) <==> FreeAt(p, x, m) || (x == a && m == o)
    ensures forall x, m: nat :: LiveAt(Pushed(p, a, o), x, m) <==> LiveAt(p, x, m)
  {
  }

  /** What the tiling says of the loose block: no other block starts in it. */
  lemma LooseApart(p: Pool, a: int, o: nat)
    requires |p.lists| == MAX_ORDER && o < MAX_ORDER && Tiled(Pushed(p, a, o))
    ensures forall m: nat, i :: m < MAX_ORDER && 0 <= i < |p.lists[m]| ==> p.lists[m][i] != a
    ensures forall i :: 0 <= i < |p.live| ==> p.live[i].addr != a
    ensures p.start <= a && a + Bytes(o) <= Limit(p) && o <= p.top
  {
    var q := Pushed(p, a, o);
    PushedBlocks(p, a, o);
    assert FreeAt(q, a, o) && Block(q, a, o);
    forall m: nat, i | m < MAX_ORDER && 0 <= i < |p.lists[m]| ensures p.lists[m][i] != a {
      assert FreeAt(q, p.lists[m][i], m) && Block(q, p.lists[m][i], m);
      if m == o {
        assert q.lists[o][i + 1] == p.lists[o][i] && q.lists[o][0] == a;
      }
    }
    forall i | 0 <= i < |p.live| ensures p.live[i].addr != a {
      assert LiveAt(q, p.live[i].addr, p.live[i].order) && Block(q, p.live[i].addr, p.live[i].order);
    }
  }

  // ---------------------------------------------------------------- pushing

  lemma PushRepresents(h: Heap, p: Pool, a: int, o: nat)
    requires Loose(h, p, a, o)
    ensures Represents(Push(h, a), Pushed(p, a, o))
  {
    var s, q := Push(h, a), Pushed(p, a, o);
    LooseApart(p, a, o);
    forall m: nat | m < MAX_ORDER ensures ListHeld(s, q, q.lists[m], m) {
      assert ListHeld(h, p, p.lists[m], m);
      if m == o {
        ConsList(h, s, p, a, p.lists[m], m);
        KeepList(s, s, p, q, q.lists[m], m);
      } else {
        KeepList(h, s, p, q, p.lists[m], m);
      }
    }
    forall i | 0 <= i < |q.live| ensures LiveHeader(s, q, q.live[i]) {
      assert LiveHeader(h, p, p.live[i]);
    }
  }

  // ---------------------------------------------------------------- merging to the right

  /** A block starts at the right edge of the loose one. */
  lemma BlockAtEdge(p: Pool, a: int, o: nat) returns (m: nat)
    requires |p.lists| == MAX_ORDER && o < MAX_ORDER && Tiled(Pushed(p, a, o)) && a + Bytes(o) < Limit(p)
    ensures FreeAt(p, a + Bytes(o), m) || LiveAt(p, a + Bytes(o), m)
  {
    var q, hi := Pushed(p, a, o), a + Bytes(o);
    LooseApart(p, a, o);
    PushedBlocks(p, a, o);
    assert Block(q, a, o) && InsideBlock(q, hi);
    var x, n: nat :| Block(q, x, n) && Within(hi, x, n);
    assert Apart(a, o, x, n);
    m := n;
  }

  /** Whatever starts at the right edge of a loose block and is free by its header is on its list. */
  lemma RightNeighbourListed(h: Heap, p: Pool, a: int, o: nat) returns (i: nat)
    requires Loose(h, p, a, o) && CanMerge(h, a) && At(h, a).buddy == a + Bytes(o) < Limit(p)
    ensures i < |p.lists[o]| && p.lists[o][i] == a + Bytes(o)
  {
    var hi := a + Bytes(o);
    var m := BlockAtEdge(p, a, o);
    StartsBusy(h, p, hi);
    assert LiveAt(p, hi, m) ==> LiveStart(p, hi);
    ListedOrder(h, p, hi, m);
    i :| 0 <= i < |p.lists[m]| && p.lists[m][i] == hi;
  }

  lemma ListedOrder(h: Heap, p: Pool, a: int, m: nat)
    requires Represents(h, p)
    ensures FreeAt(p, a, m) ==> At(h, a).order == m
  {
    if FreeAt(p, a, m) {
      var k :| 0 <= k < |p.lists[m]| && p.lists[m][k] == a;
      assert ListHeld(h, p, p.lists[m], m) && FreeHeader(h, p, p.lists[m][k], m);
    }
  }

  /** The pool without element i of list o. */
  function Taken(p: Pool, o: nat, i: nat): Pool
    requires o < |p.lists| && i < |p.lists[o]|
  {
    p.(lists := p.lists[o := Without(p.lists[o], i)])
  }

  /** Two neighbours of order o joined into one block of the next order. */
  function Joined(p: Pool, a: int, o: nat, i: nat): Pool
    requires o + 1 < |p.lists| && i < |p.lists[o]|
  {
    Pushed(Taken(p, o, i), a, o + 1)
  }

  ghost predicate Joinable(p: Pool, a: int, o: nat, i: nat) {
    && |p.lists| == MAX_ORDER && o + 1 < MAX_ORDER && Tiled(Pushed(p, a, o))
    && i < |p.lists[o]| && p.lists[o][i] == a + Bytes(o)
  }

  lemma JoinedBlocks(p: Pool, a: int, o: nat, i: nat)
    requires Joinable(p, a, o, i)
    ensures forall x, m: nat :: FreeAt(Joined(p, a, o, i), x, m) <==>
              (x == a && m == o + 1) || (FreeAt(p, x, m) && !(x == a + Bytes(o) && m == o))
    ensures forall x, m: nat :: LiveAt(Joined(p, a, o, i), x, m) <==> LiveAt(p, x, m)
  {
    PushedDisjoint(p, a, o);
    PushedBlocks(Taken(p, o, i), a, o + 1);
  }

  /** Removing the loose block leaves what is listed disjoint. */
  lemma PushedDisjoint(p: Pool, a: int, o: nat)
    requires |p.lists| == MAX_ORDER && o < MAX_ORDER && Tiled(Pushed(p, a, o))
    ensures Disjoint(p)
  {
    var q := Pushed(p, a, o);
    PushedBlocks(p, a, o);
    forall m, i, j | 0 <= m < |p.lists| && 0 <= i < j < |p.lists[m]| ensures p.lists[m][i] != p.lists[m][j] {
      if m == o {
        assert q.lists[m][i + 1] == p.lists[m][i] && q.lists[m][j + 1] == p.lists[m][j];
      } else {
        assert q.lists[m][i] == p.lists[m][i] && q.lists[m][j] == p.lists[m][j];
      }
    }
  }

  /** A block other than the two neighbours lies outside the joined one. */
  lemma OutsideJoined(p: Pool, a: int, o: nat, i: nat, x: int, m: nat)
    requires Joinable(p, a, o, i) && Block(p, x, m) && !(x == a + Bytes(o) && m == o)
    ensures Apart(a, o + 1, x, m) && x != a
  {
    var q, hi := Pushed(p, a, o), a + Bytes(o);
    PushedBlocks(p, a, o);
    LooseApart(p, a, o);
    assert Block(q, a, o) && FreeAt(q, hi, o) && Block(q, hi, o) && Block(q, x, m);
    BytesGrow(o, o + 1);
    assert !FreeAt(p, a, m) && !LiveAt(p, a, m);
    assert Apart(a, o, x, m) && Apart(hi, o, x, m);
  }

  lemma JoinedInRange(p: Pool, a: int, o: nat, i: nat)
    requires Joinable(p, a, o, i)
    ensures InRange(Joined(p, a, o, i))
  {
    var q := Pushed(p, a, o);
    PushedBlocks(p, a, o);
    JoinedBlocks(p, a, o, i);
    BytesGrow(o, o + 1);
    LooseApart(p, a, o);
    assert FreeAt(q, a + Bytes(o), o) && Block(q, a + Bytes(o), o);
    assert a + Bytes(o + 1) <= Limit(p);
    var r := Joined(p, a, o, i);
    forall x, m: nat | Block(r, x, m) ensures m <= p.top && p.start <= x && x + Bytes(m) <= Limit(p) {
      if !(x == a && m == o + 1) {
        assert Block(q, x, m);
      }
    }
  }

  lemma JoinedCovered(p: Pool, a: int, o: nat, i: nat)
    requires Joinable(p, a, o, i)
    ensures Covered(Joined(p, a, o, i))
  {
    var q, r := Pushed(p, a, o), Joined(p, a, o, i);
    PushedBlocks(p, a, o);
    JoinedBlocks(p, a, o, i);
    BytesGrow(o, o + 1);
    forall x | p.start <= x < Limit(p) ensures InsideBlock(r, x) {
      assert InsideBlock(q, x);
      var y, m: nat :| Block(q, y, m) && Within(x, y, m);
      if (y == a && m == o) || (y == a + Bytes(o) && m == o) {
        y, m := a, o + 1;
      }
      assert Block(r, y, m) && Within(x, y, m);
    }
  }

  lemma JoinedDisjoint(p: Pool, a: int, o: nat, i: nat)
    requires Joinable(p, a, o, i)
    ensures Disjoint(Joined(p, a, o, i))
  {
    var q, r := Pushed(p, a, o), Joined(p, a, o, i);
    PushedDisjoint(p, a, o);
    JoinedBlocks(p, a, o, i);
    forall x, m: nat, y, n: nat | Block(r, x, m) && Block(r, y, n) && (x != y || m != n) ensures Apart(x, m, y, n) {
      if x == a && m == o + 1 {
        OutsideJoined(p, a, o, i, y, n);
      } else if y == a && n == o + 1 {
        OutsideJoined(p, a, o, i, x, m);
      } else {
        assert Block(p, x, m) && Block(p, y, n);
      }
    }
    JoinedNoRepeats(p, a, o, i);
  }

  lemma JoinedNoRepeats(p: Pool, a: int, o: nat, i: nat)
    requires Joinable(p, a, o, i)
    ensures var r := Joined(p, a, o, i);
            && (forall x, m: nat :: !(FreeAt(r, x, m) && LiveAt(r, x, m)))
            && (forall m, j, k :: 0 <= m < |r.lists| && 0 <= j < k < |r.lists[m]| ==> r.lists[m][j] != r.lists[m][k])
            && (forall j, k :: 0 <= j < k < |r.live| ==> r.live[j].addr != r.live[k].addr)
  {
    PushedDisjoint(p, a, o);
    JoinedBlocks(p, a, o, i);
    LooseApart(p, a, o);
    var r, w := Joined(p, a, o, i), Taken(p, o, i);
    forall m, j, k | 0 <= m < |w.lists| && 0 <= j < k < |w.lists[m]| ensures w.lists[m][j] != w.lists[m][k] {
      if m == o {
        assert p.lists[o][if j < i then j else j + 1] != p.lists[o][if k < i then k else k + 1];
      } else {
        assert p.lists[m][j] != p.lists[m][k];
      }
    }
  }

  lemma JoinedTiled(p: Pool, a: int, o: nat, i: nat)
    requires Joinable(p, a, o, i)
    ensures Tiled(Joined(p, a, o, i))
  {
    JoinedInRange(p, a, o, i);
    JoinedDisjoint(p, a, o, i);
    JoinedCovered(p, a, o, i);
  }

  // ---------------------------------------------------------------- merge_blocks

  lemma TakenHeld(h: Heap, p: Pool, o: nat, i: nat)
    requires !p.lifo && |p.lists| == MAX_ORDER && o < MAX_ORDER && i < |p.lists[o]| && Disjoint(p) && Represents(h, p)
    ensures Represents(Unlink(h, o, p.lists[o][i]), Taken(p, o, i))
  {
    var l, w := p.lists[o], Taken(p, o, i);
    var s := Unlink(h, o, l[i]);
    assert ListHeld(h, p, l, o);
    UnlinkWalks(h, o, l, l[i]);
    var j :| 0 <= j < |l| && l[j] == l[i] && s == SetLink(h, o, Before(l, j), At(h, l[j]).next);
    assert j == i;
    SortedOne(h, p, l, o);
    UnlinkedList(h, o, l, i);
    assert ChainLink(h, l, 0) && (i > 0 ==> ChainLink(h, l, i - 1));
    forall m: nat | m < MAX_ORDER ensures ListHeld(s, w, w.lists[m], m) {
      if m == o {
        TakenHeaders(h, s, p, w, l, o, i);
      } else {
        assert ListHeld(h, p, p.lists[m], m);
        forall k | 0 <= k < |p.lists[m]| ensures At(s, p.lists[m][k]) == At(h, p.lists[m][k]) {
          NotInOther(p, o, i, m, k);
        }
        KeepList(h, s, p, w, p.lists[m], m);
      }
    }
    forall k | 0 <= k < |w.live| ensures LiveHeader(s, w, w.live[k]) {
      assert LiveHeader(h, p, p.live[k]);
    }
  }

  lemma SortedOne(h: Heap, p: Pool, l: seq<int>, o: nat)
    requires o < |h.heads| && ListHeld(h, p, l, o)
    ensures SortedList(h, h.heads[o], l, o)
  {
    forall i | 0 <= i < |l| ensures At(h, l[i]).order == o {
      assert FreeHeader(h, p, l[i], o);
    }
  }

  lemma TakenHeaders(h: Heap, s: Heap, p: Pool, w: Pool, l: seq<int>, o: nat, i: nat)
    requires o < |h.heads| == |s.heads| && i < |l| && ListHeld(h, p, l, o) && SamePool(p, w)
    requires IsChain(s, s.heads[o], Without(l, i))
    requires forall a :: At(s, a).(next := 0) == At(h, a).(next := 0)
    ensures ListHeld(s, w, Without(l, i), o)
  {
    forall k | 0 <= k < |l| - 1 ensures FreeHeader(s, w, Without(l, i)[k], o) {
      var a := l[if k < i then k else k + 1];
      assert FreeHeader(h, p, a, o);
      assert At(s, a).(next := 0) == At(h, a).(next := 0);
    }
  }

  /** The blocks of two lists are different. */
  lemma NotInOther(p: Pool, o: nat, i: nat, m: nat, k: nat)
    requires Disjoint(p) && o < |p.lists| && m < |p.lists| && o != m && i < |p.lists[o]| && k < |p.lists[m]|
    ensures forall j :: 0 <= j < |p.lists[o]| ==> p.lists[o][j] != p.lists[m][k]
  {
    forall j | 0 <= j < |p.lists[o]| ensures p.lists[o][j] != p.lists[m][k] {
      assert FreeAt(p, p.lists[o][j], o) && FreeAt(p, p.lists[m][k], m);
      assert Block(p, p.lists[o][j], o) && Block(p, p.lists[m][k], m);
    }
  }

  /** Writing the header of the loose block disturbs nothing else. */
  lemma GrownHeld(h: Heap, p: Pool, a: int)
    requires Represents(h, p) && At(h, a).order + 1 < MAX_ORDER
    requires forall m: nat, i :: m < MAX_ORDER && 0 <= i < |p.lists[m]| ==> p.lists[m][i] != a
    requires forall i :: 0 <= i < |p.live| ==> p.live[i].addr != a
    ensures Represents(Grown(h, a), p)
  {
    var s := Grown(h, a);
    forall m: nat | m < MAX_ORDER ensures ListHeld(s, p, p.lists[m], m) {
      assert ListHeld(h, p, p.lists[m], m);
      KeepList(h, s, p, p, p.lists[m], m);
    }
    KeepLive(h, s, p);
  }

  /** One merge: the loose block absorbs its free right neighbour. */
  lemma MergeRight(h: Heap, p: Pool, a: int, o: nat) returns (i: nat)
    requires Loose(h, p, a, o) && CanMerge(h, a) && At(h, a).buddy == a + Bytes(o)
    ensures i < |p.lists[o]| && p.lists[o][i] == a + Bytes(o)
    ensures Loose(Grown(Unlink(h, o, a + Bytes(o)), a), Taken(p, o, i), a, o + 1)
  {
    i := RightNeighbourListed(h, p, a, o);
    PushedDisjoint(p, a, o);
    TakenHeld(h, p, o, i);
    TakenApart(p, a, o, i);
    var u := Unlink(h, o, a + Bytes(o));
    assert At(u, a).(next := 0) == At(h, a).(next := 0);
    GrownHeld(u, Taken(p, o, i), a);
    GrownHeader(u, Taken(p, o, i), a, o);
    JoinedTiled(p, a, o, i);
  }

  lemma TakenApart(p: Pool, a: int, o: nat, i: nat)
    requires |p.lists| == MAX_ORDER && o < MAX_ORDER && Tiled(Pushed(p, a, o)) && i < |p.lists[o]|
    ensures var w := Taken(p, o, i); forall m: nat, j :: m < MAX_ORDER && 0 <= j < |w.lists[m]| ==> w.lists[m][j] != a
    ensures forall j :: 0 <= j < |p.live| ==> p.live[j].addr != a
  {
    LooseApart(p, a, o);
  }

  lemma GrownHeader(h: Heap, p: Pool, a: int, o: nat)
    requires SamePlace(h, p) && At(h, a).order == o && At(h, a).isFree
    ensures FreeHeader(Grown(h, a), p, a, o + 1)
  {
  }

  /** The same step, with what it leaves alone. */
  lemma MergeRightStep(h: Heap, g: Heap, p: Pool, a: int, o: nat) returns (w: Pool)
    requires Loose(h, p, a, o) && CanMerge(h, a) && At(h, a).buddy == a + Bytes(o)
    requires g == Grown(Unlink(h, o, a + Bytes(o)), a)
    ensures Loose(g, w, a, o + 1) && !LeftBuddyFree(g, a)
    ensures w.live == p.live && SamePool(p, w) && FreeAt(p, a + Bytes(o), o)
    ensures At(g, a).buddy == if a + Bytes(o + 1) < Limit(p) then a + Bytes(o + 1) else 0
    ensures forall x, m: nat :: FreeAt(w, x, m) <==> FreeAt(p, x, m) && !(x == a + Bytes(o) && m == o)
    ensures forall x :: Unlisted(p.lists, x) ==> Unlisted(w.lists, x)
    ensures forall x :: Unlisted(p.lists, x) && x != a ==> At(g, x) == At(h, x)
  {
    var i := MergeRight(h, p, a, o);
    UnlinkWrites(h, p, o, a + Bytes(o));
    TakenUnlisted(p, o, i);
    PushedDisjoint(p, a, o);
    w := Taken(p, o, i);
  }

  lemma TakenUnlisted(p: Pool, o: nat, i: nat)
    requires o < |p.lists| && i < |p.lists[o]|
    ensures forall x :: Unlisted(p.lists, x) ==> Unlisted(Taken(p, o, i).lists, x)
  {
    forall x | Unlisted(p.lists, x) ensures Unlisted(Taken(p, o, i).lists, x) {
      assert x !in p.lists[o];
    }
  }

  /** Taking a block off its list writes only headers of listed blocks. */
  lemma UnlinkWrites(h: Heap, p: Pool, o: nat, target: int)
    requires Represents(h, p) && o < MAX_ORDER
    ensures forall x :: Unlisted(p.lists, x) ==> At(Unlink(h, o, target), x) == At(h, x)
  {
    var l := p.lists[o];
    assert ListHeld(h, p, l, o);
    UnlinkWalks(h, o, l, target);
    if target in l {
      var i :| 0 <= i < |l| && l[i] == target && Unlink(h, o, target) == SetLink(h, o, Before(l, i), At(h, target).next);
      forall x | Unlisted(p.lists, x) ensures At(Unlink(h, o, target), x) == At(h, x) {
        assert x !in l;
      }
    }
  }

  /** The right neighbours of orders o up to n, one after the other, are free. */
  predicate FreeToTheRight(p: Pool, a: int, o: nat, n: nat) {
    forall k: nat :: o <= k < n ==> FreeAt(p, a + Bytes(k), k)
  }

  /** The right neighbour of order n is not, or there is no larger order. */
  predicate EndOfRow(p: Pool, a: int, n: nat) { n == MAX_ORDER - 1 || !FreeAt(p, a + Bytes(n), n) }

  /** Block a of order n is in front of its list, and what was free outside it still is. */
  ghost predicate Replaced(p: Pool, q: Pool, a: int, n: nat) {
    && n < |q.lists| && q.lists[n] != [] && q.lists[n][0] == a
    && forall x, m: nat :: FreeAt(q, x, m) <==> (x == a && m == n) || (FreeAt(p, x, m) && !Within(x, a, n))
  }

  /** Block a of order o has absorbed the whole row of free right neighbours. */
  ghost predicate Coalesced(p: Pool, q: Pool, a: int, o: nat, n: nat) {
    o <= n < MAX_ORDER && FreeToTheRight(p, a, o, n) && Replaced(p, q, a, n) && (n > o ==> EndOfRow(p, a, n))
  }

  lemma PushedReplaces(p: Pool, a: int, o: nat)
    requires |p.lists| == MAX_ORDER && o < MAX_ORDER && Tiled(Pushed(p, a, o))
    ensures Replaced(p, Pushed(p, a, o), a, o)
  {
    var q := Pushed(p, a, o);
    PushedBlocks(p, a, o);
    LooseApart(p, a, o);
    assert Block(q, a, o);
    forall x, m: nat | FreeAt(p, x, m) ensures !Within(x, a, o) {
      assert Block(q, x, m) && x != a;
      assert Apart(a, o, x, m);
    }
  }

  lemma CoalescedStep(p: Pool, w: Pool, q: Pool, a: int, o: nat, n: nat)
    requires Coalesced(w, q, a, o + 1, n) && (n == o + 1 ==> EndOfRow(w, a, n)) && FreeAt(p, a + Bytes(o), o)
    requires forall x, m: nat :: FreeAt(w, x, m) <==> FreeAt(p, x, m) && !(x == a + Bytes(o) && m == o)
    ensures Coalesced(p, q, a, o, n)
  {
    PartAddresses(a, o, n);
  }

  /** Where the merging stops, the right neighbour is not a free block of that order. */
  lemma StopsAtEnd(h: Heap, p: Pool, a: int, n: nat)
    requires Loose(h, p, a, n)
    requires At(h, a).buddy == if a + Bytes(n) < Limit(p) then a + Bytes(n) else 0
    ensures !CanMerge(h, a) ==> EndOfRow(p, a, n)
  {
    var hi := a + Bytes(n);
    if FreeAt(p, hi, n) {
      PushedBlocks(p, a, n);
      assert Block(Pushed(p, a, n), hi, n);
      var k :| 0 <= k < |p.lists[n]| && p.lists[n][k] == hi;
      assert ListHeld(h, p, p.lists[n], n) && FreeHeader(h, p, p.lists[n][k], n);
    }
  }

  /** merge_blocks joins the block with its free right neighbours, order by order until one is missing, and
      puts the result in front of its list. */
  lemma {:induction false} MergesAnyOrder(h: Heap, p: Pool, a: int, o: nat) returns (p': Pool)
    requires Loose(h, p, a, o) && a != 0 && !LeftBuddyFree(h, a)
    ensures Represents(MergeBlocks(h, a), p') && Tiled(p') && p'.live == p.live && SamePool(p, p')
    ensures Coalesced(p, p', a, o, At(MergeBlocks(h, a), a).order)
    ensures At(MergeBlocks(h, a), a).order > o <==> CanMerge(h, a)
    ensures forall x :: Unlisted(p.lists, x) && x != a ==> At(MergeBlocks(h, a), x) == At(h, x)
    decreases MAX_ORDER - o
  {
    if !CanMerge(h, a) {
      PushRepresents(h, p, a, o);
      PushedReplaces(p, a, o);
      p' := Pushed(p, a, o);
    } else {
      var g := Grown(Unlink(h, o, a + Bytes(o)), a);
      var w := MergeRightStep(h, g, p, a, o);
      p' := MergesAnyOrder(g, w, a, o + 1);
      StopsAtEnd(g, w, a, o + 1);
      MergedFurther(h, g, a, o);
      CoalescedStep(p, w, p', a, o, At(MergeBlocks(g, a), a).order);
    }
  }

  lemma MergedFurther(h: Heap, g: Heap, a: int, o: nat)
    requires |h.heads| == MAX_ORDER && At(h, a).order == o && CanMerge(h, a) && At(h, a).buddy == a + Bytes(o)
    requires g == Grown(Unlink(h, o, a + Bytes(o)), a)
    ensures MergeBlocks(h, a) == MergeBlocks(g, a)
  {
  }

  // ---------------------------------------------------------------- free

  /** The pool without live allocation i. */
  function Dropped(p: Pool, i: nat): Pool
    requires i < |p.live|
  {
    p.(live := Without(p.live, i))
  }

  lemma DroppedBlocks(p: Pool, i: nat)
    requires Disjoint(p) && i < |p.live|
    ensures forall x, m: nat :: LiveAt(Dropped(p, i), x, m) <==> LiveAt(p, x, m) && x != p.live[i].addr
    ensures forall x, m: nat :: FreeAt(Dropped(p, i), x, m) <==> FreeAt(p, x, m)
  {
    var l, w := p.live, Without(p.live, i);
    forall x, m: nat ensures LiveAt(Dropped(p, i), x, m) <==> LiveAt(p, x, m) && x != l[i].addr {
      if LiveAt(p, x, m) && x != l[i].addr {
        var k :| 0 <= k < |l| && l[k].addr == x && l[k].order == m;
        assert w[if k < i then k else k - 1] == l[k];
      }
    }
  }

  lemma FreedTiled(p: Pool, i: nat)
    requires Tiled(p) && i < |p.live| && p.live[i].order < MAX_ORDER
    ensures Tiled(Pushed(Dropped(p, i), p.live[i].addr, p.live[i].order))
  {
    var f, w := p.live[i], Dropped(p, i);
    var q := Pushed(w, f.addr, f.order);
    DroppedBlocks(p, i);
    PushedBlocks(w, f.addr, f.order);
    assert LiveAt(p, f.addr, f.order) && Block(p, f.addr, f.order);
    forall x, m: nat ensures Block(q, x, m) <==> Block(p, x, m) {
      if LiveAt(p, x, m) && x == f.addr {
        assert m != f.order ==> Apart(x, m, f.addr, f.order);
      }
    }
    forall x | p.start <= x < Limit(p) ensures InsideBlock(q, x) {
      assert InsideBlock(p, x);
      var y, m: nat :| Block(p, y, m) && Within(x, y, m);
      assert Block(q, y, m);
    }
    FreedNoRepeats(p, i);
  }

  lemma FreedNoRepeats(p: Pool, i: nat)
    requires Tiled(p) && i < |p.live| && p.live[i].order < MAX_ORDER
    ensures var q := Pushed(Dropped(p, i), p.live[i].addr, p.live[i].order);
            && (forall x, m: nat :: !(FreeAt(q, x, m) && LiveAt(q, x, m)))
            && (forall m, j, k :: 0 <= m < |q.lists| && 0 <= j < k < |q.lists[m]| ==> q.lists[m][j] != q.lists[m][k])
            && (forall j, k :: 0 <= j < k < |q.live| ==> q.live[j].addr != q.live[k].addr)
  {
    var f, w := p.live[i], Dropped(p, i);
    DroppedBlocks(p, i);
    PushedBlocks(w, f.addr, f.order);
    assert LiveAt(p, f.addr, f.order);
    assert forall j :: 0 <= j < |p.lists[f.order]| ==> FreeAt(p, p.lists[f.order][j], f.order);
  }

  /** Freeing any live allocation keeps the heap standing for a tiled pool with the others live, unless
      the swap is reached. */
  lemma FreeAny(h: Heap, p: Pool, i: nat) returns (p': Pool)
    requires !p.lifo && Tiled(p) && Represents(h, p) && i < |p.live|
    requires !LeftBuddyFree(Marked(h, p, i), p.live[i].addr)
    ensures |h.heads| == MAX_ORDER && At(h, p.live[i].addr).order < MAX_ORDER && PayloadStart(p.live[i]) != 0
    ensures Represents(Free(h, PayloadStart(p.live[i])), p') && Tiled(p') && p'.live == Without(p.live, i) && SamePool(p, p')
    ensures Coalesced(p, p', p.live[i].addr, p.live[i].order, At(Free(h, PayloadStart(p.live[i])), p.live[i].addr).order)
    ensures At(Free(h, PayloadStart(p.live[i])), p.live[i].addr).order > p.live[i].order <==> CanMerge(Marked(h, p, i), p.live[i].addr)
    ensures forall x :: Unlisted(p.lists, x) && x != p.live[i].addr ==> At(Free(h, PayloadStart(p.live[i])), x) == At(h, x)
  {
    var a, o := p.live[i].addr, p.live[i].order;
    LiveHeaderSane(h, p, i);
    FreedLoose(h, p, i);
    p' := MergesAnyOrder(Marked(h, p, i), Dropped(p, i), a, o);
    DroppedKeepsFree(p, p', i, a, o, At(MergeBlocks(Marked(h, p, i), a), a).order);
  }

  lemma LiveHeaderSane(h: Heap, p: Pool, i: nat)
    requires Tiled(p) && Represents(h, p) && i < |p.live|
    ensures p.live[i].addr > 0 && At(h, p.live[i].addr).order == p.live[i].order < MAX_ORDER
  {
    assert LiveHeader(h, p, p.live[i]);
    assert LiveAt(p, p.live[i].addr, p.live[i].order) && Block(p, p.live[i].addr, p.live[i].order);
  }

  /** Which blocks are live does not matter to how the free ones are joined. */
  lemma DroppedKeepsFree(p: Pool, q: Pool, i: nat, a: int, o: nat, n: nat)
    requires i < |p.live| && Coalesced(Dropped(p, i), q, a, o, n)
    ensures Coalesced(p, q, a, o, n)
  {
    assert forall x, m: nat :: FreeAt(Dropped(p, i), x, m) <==> FreeAt(p, x, m);
  }

  /** A live block that is marked free is loose. */
  lemma FreedLoose(h: Heap, p: Pool, i: nat)
    requires !p.lifo && Tiled(p) && Represents(h, p) && i < |p.live| && p.live[i].order < MAX_ORDER
    ensures Loose(Marked(h, p, i), Dropped(p, i), p.live[i].addr, p.live[i].order)
  {
    var f, w := p.live[i], Dropped(p, i);
    var s := Marked(h, p, i);
    assert LiveHeader(h, p, f);
    assert LiveAt(p, f.addr, f.order) && Block(p, f.addr, f.order);
    FreedTiled(p, i);
    LooseApart(w, f.addr, f.order);
    forall m: nat | m < MAX_ORDER ensures ListHeld(s, w, w.lists[m], m) {
      assert ListHeld(h, p, p.lists[m], m);
      KeepList(h, s, p, w, p.lists[m], m);
    }
    forall k | 0 <= k < |w.live| ensures LiveHeader(s, w, w.live[k]) {
      assert LiveHeader(h, p, p.live[if k < i then k else k + 1]);
    }
  }

  /** free(NULL) changes nothing. */
  lemma FreeNull(h: Heap)
    requires |h.heads| == MAX_ORDER && At(h, -HEADER_SIZE).order < MAX_ORDER
    ensures Free(h, 0) == h
  {
  }

  // ---------------------------------------------------------------- the swap

  lemma RepresentsSorted(h: Heap, p: Pool)
    requires Represents(h, p)
    ensures Sorted(h, p.lists)
  {
    forall o: nat | o < MAX_ORDER ensures SortedList(h, h.heads[o], p.lists[o], o) {
      assert ListHeld(h, p, p.lists[o], o);
      SortedOne(h, p, p.lists[o], o);
    }
  }

  lemma LiveUnlisted(p: Pool, i: nat)
    requires |p.lists| == MAX_ORDER && Disjoint(p) && i < |p.live|
    ensures Unlisted(p.lists, p.live[i].addr)
  {
    var f := p.live[i];
    assert LiveAt(p, f.addr, f.order) && Block(p, f.addr, f.order);
    forall m | 0 <= m < |p.lists| ensures f.addr !in p.lists[m] {
      if FreeAt(p, f.addr, m) {
        assert Block(p, f.addr, m);
      }
    }
  }

  /** The heap h with live allocation i marked free, as free leaves it to merge_blocks. */
  function Marked(h: Heap, p: Pool, i: nat): Heap
    requires i < |p.live|
  {
    Put(h, p.live[i].addr, At(h, p.live[i].addr).(isFree := true))
  }

  /** An address that is free by its header, but on no list, lies inside a block that starts further left. */
  lemma StaleInside(h: Heap, p: Pool, lo: int) returns (x: int, n: nat)
    requires Tiled(p) && Represents(h, p) && p.start <= lo < Limit(p)
    requires At(h, lo).isFree && At(h, lo).order < MAX_ORDER && lo !in p.lists[At(h, lo).order]
    ensures Block(p, x, n) && x < lo < x + Bytes(n)
  {
    assert InsideBlock(p, lo);
    var y, m: nat :| Block(p, y, m) && Within(lo, y, m);
    assert LiveAt(p, y, m) ==> LiveStart(p, y);
    StartsBusy(h, p, lo);
    ListedOrder(h, p, lo, m);
    x, n := y, m;
  }

  /** After the swap the heap stands for no tiled pool with the other allocations live. */
  lemma SwapBreaksTiling(h: Heap, p: Pool, i: nat, q: Pool)
    requires Tiled(p) && Represents(h, p) && i < |p.live| && At(h, p.live[i].addr).order < MAX_ORDER
    requires LeftBuddyFree(Marked(h, p, i), p.live[i].addr) && p.live[i].addr != 0
    requires SameFrames(Without(p.live, i), q.live) && SamePool(p, q)
    requires Represents(MergeBlocks(Marked(h, p, i), p.live[i].addr), q)
    ensures !Tiled(q)
  {
    var block, freed := p.live[i].addr, Marked(h, p, i);
    RepresentsSorted(h, p);
    RepresentsSorted(MergeBlocks(freed, block), q);
    LiveUnlisted(p, i);
    OffListsSorted(h, p.lists, block, At(freed, block));
    if SwapsListed(freed, p.lists, block) {
      SwapBreaksLists(freed, p.lists, block);
    } else {
      var lists' := NoSwapKeepsSorted(freed, p.lists, block);
      SameLists(MergeBlocks(freed, block), lists', q.lists);
      StaleBlockOverlaps(h, p, i, q, At(h, block).buddy);
    }
  }

  /** A block put on a list at a stale address overlaps the one that contains the address. */
  lemma StaleBlockOverlaps(h: Heap, p: Pool, i: nat, q: Pool, lo: int)
    requires Tiled(p) && Represents(h, p) && i < |p.live| && SameFrames(Without(p.live, i), q.live) && SamePool(p, q)
    requires lo < p.live[i].addr && At(h, lo).isFree && At(h, lo).order < MAX_ORDER && lo !in p.lists[At(h, lo).order]
    requires |q.lists| == MAX_ORDER && exists m: nat :: m < MAX_ORDER && lo in q.lists[m]
    requires forall m: nat, a :: m < MAX_ORDER && a in p.lists[m] && a < lo ==> a in q.lists[m]
    ensures !Tiled(q)
  {
    if Tiled(q) {
      var m: nat :| m < MAX_ORDER && lo in q.lists[m];
      assert FreeAt(q, lo, m) && Block(q, lo, m);
      var x, n := StaleInside(h, p, lo);
      StillBlock(p, q, i, x, n, lo);
    }
  }

  lemma StillBlock(p: Pool, q: Pool, i: nat, x: int, n: nat, lo: int)
    requires i < |p.live| && Block(p, x, n) && x < lo < p.live[i].addr && |p.lists| == |q.lists| == MAX_ORDER
    requires SameFrames(Without(p.live, i), q.live)
    requires forall m: nat, a :: m < MAX_ORDER && a in p.lists[m] && a < lo ==> a in q.lists[m]
    ensures Block(q, x, n)
  {
    if LiveAt(p, x, n) {
      var k :| 0 <= k < |p.live| && p.live[k].addr == x && p.live[k].order == n;
      assert Without(p.live, i)[if k < i then k else k - 1] == p.live[k];
      assert q.live[if k < i then k else k - 1].(from := 0) == p.live[k].(from := 0);
    }
  }

  /** Which free block a live one was carved from is history. */
  predicate SameFrames(a: seq<Frame>, b: seq<Frame>) {
    |a| == |b| && forall k :: 0 <= k < |a| ==> a[k].(from := 0) == b[k].(from := 0)
  }

  /** The heap stands for some tiled pool of this place in which exactly these allocations are live. */
  ghost predicate Stands(h: Heap, place: Pool, live: seq<Frame>) {
    exists q: Pool :: Represents(h, q) && Tiled(q) && SameFrames(live, q.live) && SamePool(place, q)
  }

  /** Freeing allocation i leaves a heap that stands for a tiled pool with the others live exactly when the
      block's recorded buddy is not, by its header, a free block of its order to the left. */
  lemma FreeExactly(h: Heap, p: Pool, i: nat)
    requires !p.lifo && Tiled(p) && Represents(h, p) && i < |p.live|
    ensures |h.heads| == MAX_ORDER && At(h, p.live[i].addr).order < MAX_ORDER && PayloadStart(p.live[i]) != 0
    ensures Stands(Free(h, PayloadStart(p.live[i])), p, Without(p.live, i)) <==> !LeftBuddyFree(Marked(h, p, i), p.live[i].addr)
  {
    assert LiveHeader(h, p, p.live[i]);
    assert LiveAt(p, p.live[i].addr, p.live[i].order) && Block(p, p.live[i].addr, p.live[i].order);
    var s := Free(h, PayloadStart(p.live[i]));
    if !LeftBuddyFree(Marked(h, p, i), p.live[i].addr) {
      var q := FreeAny(h, p, i);
    } else if Stands(s, p, Without(p.live, i)) {
      var q: Pool :| Represents(s, q) && Tiled(q) && SameFrames(Without(p.live, i), q.live) && SamePool(p, q);
      SwapBreaksTiling(h, p, i, q);
    }
  }
}
