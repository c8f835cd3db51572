/** lib/list.c: an intrusive doubly linked list between two sentinels, as a heap structure that refines
    a duplicate-free sequence of nodes. */
module LinkedLists {
  class ListNode {
    var prev: ListNode?
    var next: ListNode?

    constructor ()
      ensures prev == null && next == null
    {
      prev, next := null, null;
    }
  }

  ghost predicate Distinct(s: seq<ListNode>) { forall i, j :: 0 <= i < j < |s| ==> s[i] != s[j] }

  /** Entries k and k+1 of a chain point at each other. */
  ghost predicate Link(c: seq<ListNode>, k: nat)
    requires k + 1 < |c|
    reads c
  {
    c[k].next == c[k + 1] && c[k + 1].prev == c[k]
  }

  function Inserted(c: seq<ListNode>, i: nat, node: ListNode): (d: seq<ListNode>)
    requires i <= |c|
    ensures |d| == |c| + 1
    ensures forall k :: 0 <= k < |d| ==> d[k] == if k < i then c[k] else if k == i then node else c[k - 1]
  {
    c[..i] + [node] + c[i..]
  }

  lemma InsertedDistinct(c: seq<ListNode>, i: nat, node: ListNode)
    requires i <= |c| && Distinct(c) && node !in c
    ensures Distinct(Inserted(c, i, node))
  {
  }

  /** Entry i of the chain is entry i - 1 between the sentinels. */
  lemma InsertedBetween(head: ListNode, nodes: seq<ListNode>, tail: ListNode, i: nat, node: ListNode)
    requires 1 <= i <= |nodes| + 1
    ensures [head] + (nodes[..i - 1] + [node] + nodes[i - 1..]) + [tail] == Inserted([head] + nodes + [tail], i, node)
  {
    var c := [head] + nodes + [tail];
    assert c[..i] == [head] + nodes[..i - 1];
    assert c[i..] == nodes[i - 1..] + [tail];
  }

  function Dropped(c: seq<ListNode>, i: nat): (d: seq<ListNode>)
    requires i < |c|
    ensures |d| == |c| - 1
    ensures forall k :: 0 <= k < |d| ==> d[k] == if k < i then c[k] else c[k + 1]
  {
    c[..i] + c[i + 1..]
  }

  lemma DroppedDistinct(c: seq<ListNode>, i: nat)
    requires i < |c| && Distinct(c)
    ensures Distinct(Dropped(c, i))
  {
  }

  ghost predicate Linked(c: seq<ListNode>)
    reads c
  {
    forall k: nat :: k + 1 < |c| ==> Link(c, k)
  }

  /** list_insert_before, on any chain of which `target` is entry i. */
  method ListInsertBefore(target: ListNode, node: ListNode, ghost c: seq<ListNode>, ghost i: nat,
          ghost before: ListNode)
    requires Distinct(c) && Linked(c) && 1 <= i < |c| && c[i] == target && node !in c
    requires c[i - 1] == before
    modifies before`next, target`prev, node
    ensures Linked(Inserted(c, i, node))
  {
    assert Link(c, i - 1);
    target.prev.next := node;
    node.next := target;
    node.prev := target.prev;
    target.prev := node;
    ghost var d := Inserted(c, i, node);
    forall k: nat | k + 1 < |d| ensures Link(d, k) {
      if k + 1 < i { assert old(Link(c, k)); } else if k > i { assert old(Link(c, k - 1)); }
    }
  }

  /** list_remove, on any chain of which `node` is an inner entry. */
  method ListRemove(node: ListNode, ghost c: seq<ListNode>, ghost i: nat, ghost before: ListNode, ghost after: ListNode)
    requires Distinct(c) && Linked(c) && 1 <= i < |c| - 1 && c[i] == node
    requires c[i - 1] == before && c[i + 1] == after
    modifies before`next, after`prev
    ensures Linked(Dropped(c, i))
  {
    assert Link(c, i - 1) && Link(c, i);
    node.prev.next := node.next;
    node.next.prev := node.prev;
    ghost var d := Dropped(c, i);
    forall k: nat | k + 1 < |d| ensures Link(d, k) {
      if k + 1 < i { assert old(Link(c, k)); } else if k >= i { assert old(Link(c, k + 1)); }
    }
  }

  class LinkedList {
    const head: ListNode
    const tail: ListNode
    ghost var nodes: seq<ListNode>

    /** The sentinels and the nodes between them. */
    ghost function Chain(): (c: seq<ListNode>)
      reads this
      ensures |c| == |nodes| + 2 && c[0] == head && c[|nodes| + 1] == tail
      ensures forall i :: 0 <= i < |nodes| ==> c[i + 1] == nodes[i]
    {
      [head] + nodes + [tail]
    }

    ghost function At(i: nat): ListNode
      requires i < |nodes| + 2
      reads this
    {
      Chain()[i]
    }

    /** prev and next are mutually inverse from head to tail, and no node occurs twice. */
    ghost predicate Valid()
      reads this, head, tail, nodes
    {
      var c := Chain();
      && Distinct(c) && head.prev == null && tail.next == null
      && Linked(c)
    }

    /** list_init. */
    constructor ()
      ensures Valid() && nodes == [] && fresh(head) && fresh(tail)
    {
      head := new ListNode();
      tail := new ListNode();
      nodes := [];
      new;
      head.next := tail;
      head.prev := null;
      tail.prev := head;
      tail.next := null;
    }

    /** list_insert_before; `target` is entry i of the chain. */
    method InsertBefore(target: ListNode, node: ListNode, ghost i: nat)
      requires Valid() && 1 <= i < |Chain()| && Chain()[i] == target && node !in Chain()
      modifies this`nodes, At(i - 1)`next, target`prev, node
      ensures Valid()
      ensures nodes == old(nodes[..i - 1] + [node] + nodes[i - 1..])
    {
      ghost var c := Chain();
      ListInsertBefore(target, node, c, i, c[i - 1]);
      InsertedDistinct(c, i, node);
      InsertedBetween(head, nodes, tail, i, node);
      hide Distinct;
      nodes := nodes[..i - 1] + [node] + nodes[i - 1..];
      assert Chain() == Inserted(c, i, node);
    }

    method PushFront(node: ListNode)
      requires Valid() && node !in Chain()
      modifies this`nodes, head`next, At(1)`prev, node
      ensures Valid() && nodes == [node] + old(nodes)
    {
      assert Link(Chain(), 0);
      InsertBefore(head.next, node, 1);
    }

    method PushBack(node: ListNode)
      requires Valid() && node !in Chain()
      modifies this`nodes, tail`prev, At(|nodes|)`next, node
      ensures Valid() && nodes == old(nodes) + [node]
    {
      InsertBefore(tail, node, |nodes| + 1);
    }

    /** list_remove: `node` is entry i of the sequence; its own links are left as they were. */
    method Remove(node: ListNode, ghost i: nat)
      requires Valid() && i < |nodes| && nodes[i] == node
      modifies this`nodes, At(i)`next, At(i + 2)`prev
      ensures Valid()
      ensures nodes == old(nodes[..i] + nodes[i + 1..])
    {
      ghost var c := Chain();
      ListRemove(node, c, i + 1, c[i], c[i + 2]);
      DroppedDistinct(c, i + 1);
      hide Distinct;
      nodes := nodes[..i] + nodes[i + 1..];
      assert Chain() == Dropped(c, i + 1);
    }

    method Size() returns (n: nat)
      requires Valid()
      ensures n == |nodes|
    {
      n := 0;
      assert Link(Chain(), 0);
      var curr := head.next;
      while curr != tail
        invariant n <= |nodes| && curr == Chain()[n + 1]
        decreases |nodes| - n
      {
        assert Link(Chain(), n + 1);
        n := n + 1;
        curr := curr.next;
      }
    }

    method PopFront() returns (node: ListNode?)
      requires Valid()
      modifies this`nodes, head`next, if nodes == [] then {} else {At(2)}
      ensures Valid()
      ensures old(nodes) == [] ==> node == null && nodes == []
      ensures old(nodes) != [] ==> node == old(nodes)[0] && nodes == old(nodes)[1..]
    {
      node := head.next;
      assert Link(Chain(), 0);
      if node == tail {
        return null;
      }
      Remove(node, 0);
    }

    method PopBack() returns (node: ListNode?)
      requires Valid()
      modifies this`nodes, tail`prev, if nodes == [] then {} else {At(|nodes| - 1)}
      ensures Valid()
      ensures old(nodes) == [] ==> node == null && nodes == []
      ensures old(nodes) != [] ==> node == old(nodes[|nodes| - 1]) && nodes == old(nodes[..|nodes| - 1])
    {
      node := tail.prev;
      assert Link(Chain(), |nodes|);
      if node == head {
        return null;
      }
      Remove(node, |nodes| - 1);
    }

    /** list_traversal: the first node the test accepts. */
    method Traversal(func: (ListNode, int) -> bool, arg: int) returns (r: ListNode?)
      requires Valid()
      ensures r == null <==> forall i :: 0 <= i < |nodes| ==> !func(nodes[i], arg)
      ensures r != null ==> exists i :: 0 <= i < |nodes| && nodes[i] == r && func(r, arg)
                                        && forall j :: 0 <= j < i ==> !func(nodes[j], arg)
    {
      assert Link(Chain(), 0);
      var node := head.next;
      ghost var n := 0;
      while node != tail
        invariant n <= |nodes| && node == Chain()[n + 1]
        invariant forall j :: 0 <= j < n ==> !func(nodes[j], arg)
        decreases |nodes| - n
      {
        if func(node, arg) {
          assert nodes[n] == node;
          return node;
        }
        assert Link(Chain(), n + 1);
        node := node.next;
        n := n + 1;
      }
      return null;
    }

    /** Any node may be asked for, the sentinels too, which are on no list. */
    method Exist(node: ListNode) returns (r: bool)
      requires Valid()
      ensures r <==> node in nodes
      ensures node == tail || node == head ==> !r
    {
      assert Link(Chain(), 0);
      var curr := head.next;
      ghost var n := 0;
      while curr != tail
        invariant n <= |nodes| && curr == Chain()[n + 1]
        invariant node !in nodes[..n]
        decreases |nodes| - n
      {
        if curr == node {
          assert nodes[n] == node;
          return true;
        }
        assert Link(Chain(), n + 1);
        curr := curr.next;
        n := n + 1;
      }
      return false;
    }

    method Empty() returns (r: bool)
      requires Valid()
      ensures r <==> nodes == []
    {
      assert Link(Chain(), 0);
      r := head.next == tail;
    }
  }

  /** The wake-up path of sem_up and thread_unblock: the first waiter moves to the front of the ready
      list, both lists stay well formed, and no other node is written. */
  method WakeFirst(waiters: LinkedList, ready: LinkedList) returns (node: ListNode?)
    requires waiters.Valid() && ready.Valid() && waiters != ready
    requires forall n :: n in waiters.Chain() ==> n !in ready.Chain()
    modifies waiters, ready, waiters.Chain(), ready.Chain()
    ensures waiters.Valid() && ready.Valid()
    ensures old(waiters.nodes) == [] ==> node == null && waiters.nodes == [] && ready.nodes == old(ready.nodes)
    ensures old(waiters.nodes) != [] ==>
              node == old(waiters.nodes)[0] && waiters.nodes == old(waiters.nodes)[1..]
              && ready.nodes == [node] + old(ready.nodes)
  {
    ghost var w := waiters.Chain();
    ghost var r := ready.Chain();
    assert forall i :: 0 <= i < |w| ==> w[i] in w;
    node := waiters.PopFront();
    assert ready.Chain() == r && ready.Valid();
    if node != null {
      assert node == w[1] && waiters.Chain() == [w[0]] + w[2..];
      assert forall i :: 0 <= i < |r| ==> r[i] in r;
      ready.PushFront(node);
    }
  }

  /** Inserting into one list leaves any other list's nodes and links as they were. */
  method InsertBeside(l: LinkedList, node: ListNode, other: LinkedList)
    requires l.Valid() && other.Valid() && l != other && node !in l.Chain() && node !in other.Chain()
    requires forall n :: n in l.Chain() ==> n !in other.Chain()
    modifies l, node, l.Chain()
    ensures l.Valid() && l.nodes == old(l.nodes) + [node]
    ensures other.Valid() && other.nodes == old(other.nodes)
  {
    assert l.Chain()[|l.nodes|] in l.Chain() && l.tail in l.Chain() by { assert l.Chain()[|l.nodes| + 1] == l.tail; }
    ghost var o := other.Chain();
    l.PushBack(node);
    assert other.Chain() == o;
  }
}
