/**
 The intrusive circular list of oop_in_c/my_list.h and the observers of oop_in_c/observe_mode.c that
 live on it. A ring is described by the sequence of its nodes, the head first.
 */
module Ring {
  import opened Sequences

  /** struct list_head; `entry` stands for what list_entry computes from the node's address: the
      observer it is embedded in, or null for the list head itself. */
  class ListHead {
    var next: ListHead?
    var prev: ListHead?
    var entry: Observer?

    constructor (entry: Observer?)
      ensures this.entry == entry && next == null && prev == null
    {
      this.entry := entry;
      next, prev := null, null;
    }
  }

  class Observer {
    const id: int
    const hasNotify: bool
    const list: ListHead

    constructor (id: int, hasNotify: bool)
      ensures this.id == id && this.hasNotify == hasNotify
      ensures fresh(list) && list.entry == this && list.next == null && list.prev == null
    {
      this.id, this.hasNotify := id, hasNotify;
      list := new ListHead(null);
      new;
      list.entry := this;
    }
  }

  predicate NoRepeats<T(==)>(s: seq<T>) { forall i, j :: 0 <= i < j < |s| ==> s[i] != s[j] }

  function After(n: nat, i: nat): nat
    requires i < n
    ensures After(n, i) < n
  {
    if i + 1 < n then i + 1 else 0
  }

  /** next and prev are mutually inverse around one cycle through exactly these nodes. */
  ghost predicate IsRing(nodes: seq<ListHead>)
    reads nodes
  {
    |nodes| > 0 && NoRepeats(nodes) && forall i :: 0 <= i < |nodes| ==> Joined(nodes, i, After(|nodes|, i))
  }

  ghost predicate Joined(nodes: seq<ListHead>, i: nat, j: nat)
    requires i < |nodes| && j < |nodes|
    reads nodes
  {
    nodes[i].next == nodes[j] && nodes[j].prev == nodes[i]
  }

  /** INIT_LIST_HEAD */
  method InitListHead(list: ListHead)
    modifies list
    ensures IsRing([list]) && list.entry == old(list.entry)
  {
    list.next := list;
    list.prev := list;
  }

  function Inserted(nodes: seq<ListHead>, i: nat, node: ListHead): (r: seq<ListHead>)
    requires i < |nodes|
    ensures |r| == |nodes| + 1
    ensures forall k :: 0 <= k < |r| ==> r[k] == if k <= i then nodes[k] else if k == i + 1 then node else nodes[k - 1]
  {
    nodes[..i + 1] + [node] + nodes[i + 1..]
  }

  twostate predicate EntriesKept(nodes: seq<ListHead>)
    reads nodes
  {
    forall k :: 0 <= k < |nodes| ==> nodes[k].entry == old(nodes[k].entry)
  }

  lemma InsertedNoRepeats(nodes: seq<ListHead>, i: nat, node: ListHead)
    requires NoRepeats(nodes) && node !in nodes && i < |nodes|
    ensures NoRepeats(Inserted(nodes, i, node))
  {
    var r := Inserted(nodes, i, node);
    forall j, k | 0 <= j < k < |r| ensures r[j] != r[k] {
      if j != i + 1 && k != i + 1 {
        var j', k' := if j <= i then j else j - 1, if k <= i then k else k - 1;
        assert nodes[j'] != nodes[k'];
      }
    }
  }

  /** __list_add between a node of a ring and its successor. */
  method InsertBetween(node: ListHead, before: ListHead, after: ListHead, ghost nodes: seq<ListHead>, ghost i: nat)
    requires IsRing(nodes) && node !in nodes && i < |nodes|
    requires before == nodes[i] && after == nodes[After(|nodes|, i)]
    modifies nodes, node
    ensures IsRing(Inserted(nodes, i, node)) && EntriesKept(nodes) && node.entry == old(node.entry)
  {
    ghost var r := Inserted(nodes, i, node);
    InsertedNoRepeats(nodes, i, node);
    after.prev := node;
    node.next := after;
    node.prev := before;
    before.next := node;
    forall k | 0 <= k < |r| ensures Joined(r, k, After(|r|, k)) {
      if k < i || k > i + 1 {
        var j := if k < i then k else k - 1;
        assert old(Joined(nodes, j, After(|nodes|, j)));
        assert nodes[j] != before && nodes[After(|nodes|, j)] != after;
      }
    }
  }

  /** list_add: right after the head. */
  method ListAdd(node: ListHead, head: ListHead, ghost nodes: seq<ListHead>)
    requires IsRing(nodes) && nodes[0] == head && node !in nodes
    modifies nodes, node
    ensures IsRing([head, node] + nodes[1..]) && EntriesKept(nodes) && node.entry == old(node.entry)
  {
    assert Joined(nodes, 0, After(|nodes|, 0));
    InsertBetween(node, head, head.next, nodes, 0);
    assert Inserted(nodes, 0, node) == [head, node] + nodes[1..];
  }

  /** list_add_tail: right before the head, at the end of the sequence. */
  method ListAddTail(node: ListHead, head: ListHead, ghost nodes: seq<ListHead>)
    requires IsRing(nodes) && nodes[0] == head && node !in nodes
    modifies nodes, node
    ensures IsRing(nodes + [node]) && EntriesKept(nodes) && node.entry == old(node.entry)
  {
    assert Joined(nodes, |nodes| - 1, After(|nodes|, |nodes| - 1));
    InsertBetween(node, head.prev, head, nodes, |nodes| - 1);
    assert Inserted(nodes, |nodes| - 1, node) == nodes + [node];
  }

  lemma WithoutNoRepeats(nodes: seq<ListHead>, i: nat)
    requires NoRepeats(nodes) && i < |nodes|
    ensures NoRepeats(Without(nodes, i))
  {
    var r := Without(nodes, i);
    forall j, k | 0 <= j < k < |r| ensures r[j] != r[k] {
      var j', k' := if j < i then j else j + 1, if k < i then k else k + 1;
      assert nodes[j'] != nodes[k'];
    }
  }

  /** list_del: the node leaves the ring, if it is not alone in it, and its own links are cleared. */
  method ListDel(node: ListHead, ghost nodes: seq<ListHead>, ghost i: nat)
    requires IsRing(nodes) && i < |nodes| && nodes[i] == node
    modifies nodes
    ensures |nodes| > 1 ==> IsRing(Without(nodes, i))
    ensures EntriesKept(nodes)
    ensures node.next == null && node.prev == null
  {
    WithoutNoRepeats(nodes, i);
    ghost var n := |nodes|;
    ghost var p: nat := if i == 0 then n - 1 else i - 1;
    assert Joined(nodes, p, After(n, p)) && Joined(nodes, i, After(n, i));
    node.next.prev := node.prev;
    node.prev.next := node.next;
    node.next := null;
    node.prev := null;
    ghost var r := Without(nodes, i);
    forall k | 0 <= k < |r| ensures Joined(r, k, After(|r|, k)) {
      var j := if k < i then k else k + 1;
      if j != p {
        assert old(Joined(nodes, j, After(n, j)));
        assert nodes[j] != nodes[p] && nodes[After(n, j)] != nodes[After(n, i)];
      }
    }
  }

  // ---------------------------------------------------------------- observers

  function Nodes(head: ListHead, members: seq<Observer>): (r: seq<ListHead>)
    ensures |r| == |members| + 1 && r[0] == head
    ensures forall k :: 0 < k < |r| ==> r[k] == members[k - 1].list
  {
    [head] + seq(|members|, i requires 0 <= i < |members| => members[i].list)
  }

  /** Each node after the head is embedded in the member at its position. */
  ghost predicate EntriesAre(nodes: seq<ListHead>, members: seq<Observer>)
    requires |nodes| == |members| + 1
    reads nodes
  {
    forall k :: 0 < k < |nodes| ==> nodes[k].entry == members[k - 1]
  }

  /** The members whose callback is set. */
  function Notified(members: seq<Observer>): seq<Observer> {
    if members == [] then []
    else (if members[0].hasNotify then [members[0]] else []) + Notified(members[1..])
  }

  lemma {:induction false} NotifiedAppend(a: seq<Observer>, o: Observer)
    ensures Notified(a + [o]) == Notified(a) + if o.hasNotify then [o] else []
  {
    var first := if a == [] then [] else if a[0].hasNotify then [a[0]] else [];
    if a == [] {
      assert a + [o] == [o];
      assert Notified([o]) == (if o.hasNotify then [o] else []) + Notified([]);
    } else {
      NotifiedAppend(a[1..], o);
      assert (a + [o])[1..] == a[1..] + [o] && (a + [o])[0] == a[0];
      assert Notified(a + [o]) == first + Notified(a[1..] + [o]);
    }
  }

  /** The position of the first member with the id, or the number of members. */
  function FirstWith(members: seq<Observer>, id: int): (k: nat)
    ensures k <= |members|
    ensures k < |members| ==> members[k].id == id
    ensures forall j :: 0 <= j < k ==> members[j].id != id
  {
    if members == [] then 0 else if members[0].id == id then 0 else 1 + FirstWith(members[1..], id)
  }

  /** notify_all calls each member that has a callback once, in ring order, and no other. */
  lemma {:induction false} NotifiedInOrder(members: seq<Observer>) returns (at: seq<nat>)
    ensures |at| == |Notified(members)|
    ensures forall j, k :: 0 <= j < k < |at| ==> at[j] < at[k]
    ensures forall k :: 0 <= k < |at| ==> at[k] < |members| && Notified(members)[k] == members[at[k]]
    ensures forall i :: 0 <= i < |members| ==> (members[i].hasNotify <==> i in at)
  {
    at := [];
    if members != [] {
      var n := |members| - 1;
      var front, last := members[..n], members[n];
      at := NotifiedInOrder(front);
      assert members == front + [last];
      NotifiedAppend(front, last);
      if last.hasNotify {
        at := at + [n];
      }
    }
  }

  /** Removing by its id the observer that was added last restores the members. */
  lemma DeleteUndoesAdd(members: seq<Observer>, obs: Observer)
    ensures FirstWith([obs] + members, obs.id) == 0
    ensures Without([obs] + members, FirstWith([obs] + members, obs.id)) == members
  {
    var now := Without([obs] + members, 0);
    assert forall k :: 0 <= k < |members| ==> now[k] == members[k];
  }

  lemma NodesWithout(head: ListHead, members: seq<Observer>, i: nat)
    requires i < |members|
    ensures Nodes(head, Without(members, i)) == Without(Nodes(head, members), i + 1)
  {
  }

  lemma NodesPrepended(head: ListHead, members: seq<Observer>, obs: Observer)
    ensures Nodes(head, [obs] + members) == [head, obs.list] + Nodes(head, members)[1..]
  {
    var r, s := Nodes(head, [obs] + members), [head, obs.list] + Nodes(head, members)[1..];
    forall k | 0 <= k < |r| ensures r[k] == s[k] {
      assert k > 1 ==> s[k] == Nodes(head, members)[k - 1] && ([obs] + members)[k - 1] == members[k - 2];
    }
  }

  lemma EntriesWithout(nodes: seq<ListHead>, members: seq<Observer>, i: nat)
    requires i < |members| && |nodes| == |members| + 1 && EntriesAre(nodes, members)
    ensures EntriesAre(Without(nodes, i + 1), Without(members, i))
  {
    var now := Without(nodes, i + 1);
    forall k | 0 < k < |now| ensures now[k].entry == Without(members, i)[k - 1] {
      var j := if k < i + 1 then k else k + 1;
      assert nodes[j].entry == members[j - 1];
    }
  }

  lemma EntriesPrepended(nodes: seq<ListHead>, members: seq<Observer>, obs: Observer)
    requires |nodes| == |members| + 1 && obs.list.entry == obs && EntriesAre(nodes, members)
    ensures EntriesAre([nodes[0], obs.list] + nodes[1..], [obs] + members)
  {
    var now := [nodes[0], obs.list] + nodes[1..];
    forall k | 0 < k < |now| ensures now[k].entry == ([obs] + members)[k - 1] {
      assert k > 1 ==> now[k] == nodes[k - 1] && nodes[k - 1].entry == members[k - 2];
    }
  }

  class Server {
    const head: ListHead
    ghost var members: seq<Observer>

    ghost predicate Valid()
      reads this, Nodes(head, members)
    {
      && IsRing(Nodes(head, members))
      && head.entry == null
      && EntriesAre(Nodes(head, members), members)
    }

    /** The ring and the entries make the server valid. */
    lemma NowValid(nodes: seq<ListHead>)
      requires nodes == Nodes(head, members) && IsRing(nodes) && head.entry == null && EntriesAre(nodes, members)
      ensures Valid()
    {
    }

    constructor ()
      ensures Valid() && members == [] && fresh(head)
    {
      head := new ListHead(null);
      members := [];
      new;
      InitListHead(head);
      assert Nodes(head, members) == [head];
    }

    /** notify_all: the callbacks run, in ring order, each member once. */
    method NotifyAll() returns (calls: seq<Observer>)
      requires Valid()
      ensures calls == Notified(members)
    {
      calls := [];
      ghost var i := 0;
      assert Joined(Nodes(head, members), 0, After(|members| + 1, 0));
      var node := head.next;
      while node != head
        invariant 0 <= i <= |members| && node == Nodes(head, members)[After(|members| + 1, i)]
        invariant calls == Notified(members[..i])
        decreases |members| - i
      {
        assert node == Nodes(head, members)[i + 1];
        var obs := node.entry;
        assert members[..i + 1] == members[..i] + [obs];
        NotifiedAppend(members[..i], obs);
        if obs.hasNotify {
          calls := calls + [obs];
        }
        i := i + 1;
        assert Joined(Nodes(head, members), i, After(|members| + 1, i));
        node := node.next;
      }
      assert members[..i] == members;
    }

    /** add_observe: the newest member comes first. */
    method AddObserve(obs: Observer)
      requires Valid() && obs.list.entry == obs && obs.list !in Nodes(head, members)
      modifies this, Nodes(head, members), obs.list
      ensures Valid() && members == [obs] + old(members)
    {
      ghost var nodes, was := Nodes(head, members), members;
      ListAdd(obs.list, head, nodes);
      members := [obs] + was;
      assert EntriesAre(nodes, was) by {
        assert forall k :: 0 < k < |nodes| ==> nodes[k].entry == old(nodes[k].entry);
      }
      assert nodes[0].entry == old(nodes[0].entry);
      EntriesPrepended(nodes, was, obs);
      NodesPrepended(head, was, obs);
      NowValid([head, obs.list] + nodes[1..]);
    }

    /** The search of del_observe: the first member with the id, or null. */
    method Find(id: int) returns (obs: Observer?)
      requires Valid()
      ensures obs == var i := FirstWith(members, id); if i < |members| then members[i] else null
    {
      ghost var nodes := Nodes(head, members);
      ghost var i: nat := 0;
      assert Joined(nodes, 0, After(|nodes|, 0));
      var node := head.next;
      while node != head
        invariant i <= |members| && node == nodes[After(|nodes|, i)]
        invariant FirstWith(members, id) >= i
        decreases |members| - i
      {
        assert node == nodes[i + 1];
        obs := node.entry;
        if obs.id == id {
          return;
        }
        i := i + 1;
        assert Joined(nodes, i, After(|nodes|, i));
        node := node.next;
      }
      obs := null;
    }

    /** del_observe: removes the first member with the id, and nothing if there is none. */
    method DelObserve(id: int)
      requires Valid()
      modifies this, Nodes(head, members)
      ensures Valid()
      ensures var k := FirstWith(old(members), id);
              if k == |old(members)| then members == old(members) && unchanged(Nodes(head, old(members)))
              else members == Without(old(members), k) && old(members)[k].list.next == null
    {
      ghost var nodes, was := Nodes(head, members), members;
      ghost var i := FirstWith(members, id);
      var obs := Find(id);
      if obs != null {
        assert nodes[i + 1] == obs.list;
        ListDel(obs.list, nodes, i + 1);
        members := Without(was, i);
        assert EntriesAre(nodes, was) by {
          assert forall k :: 0 < k < |nodes| ==> nodes[k].entry == old(nodes[k].entry);
        }
        assert nodes[0].entry == old(nodes[0].entry);
        EntriesWithout(nodes, was, i);
        NodesWithout(head, was, i);
        NowValid(Without(nodes, i + 1));
      }
    }
  }
}
