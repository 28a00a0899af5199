/**
 The pointer code of the kernel's queues and lists: sys/lib/queue.cpp and sys/include/list.h.

 A ring of nodes, the head of the queue among them, is specified by the sequence of its nodes; the
 rest of the model works on such sequences.
 */
module Links {

  class Node {
    var next: Node
    var prev: Node

    /** list_init */
    constructor ()
      ensures next == this && prev == this
    {
      next, prev := this, this;
    }
  }

  function Succ(i: nat, n: nat): nat {
    if i + 1 < n then i + 1 else 0
  }

  /** The nodes are all different and linked in a ring, in this order. */
  ghost predicate Ring(r: seq<Node>)
    reads r
  {
    && |r| > 0
    && (forall i, j :: 0 <= i < j < |r| ==> r[i] != r[j])
    && (forall i :: 0 <= i < |r| ==> r[i].next == r[Succ(i, |r|)] && r[Succ(i, |r|)].prev == r[i])
  }

  /** list_insert and queue_insert: item after prev, which is node k of the ring. */
  method Insert(prev: Node, item: Node, ghost r: seq<Node>, ghost k: nat)
    requires Ring(r) && k < |r| && r[k] == prev && item !in r
    modifies item, prev`next, prev.next`prev
    ensures Ring(r[..k + 1] + [item] + r[k + 1..])
  {
    ghost var r' := r[..k + 1] + [item] + r[k + 1..];
    InsertedOrder(r, item, k);
    assert r[Succ(k, |r|)] == prev.next;
    item.prev := prev;
    item.next := prev.next;
    prev.next.prev := item;
    prev.next := item;
    forall i | 0 <= i < |r'| ensures r'[i].next == r'[Succ(i, |r'|)] && r'[Succ(i, |r'|)].prev == r'[i] {
      ghost var j := if i <= k then i else i - 1;
      assert old(r[j].next == r[Succ(j, |r|)] && r[Succ(j, |r|)].prev == r[j]);
    }
  }

  /** Nodes of the longer ring, and those after them. */
  lemma InsertedOrder(r: seq<Node>, item: Node, k: nat)
    requires k < |r| && item !in r && forall i, j :: 0 <= i < j < |r| ==> r[i] != r[j]
    ensures var r' := r[..k + 1] + [item] + r[k + 1..];
            && (forall i, j :: 0 <= i < j < |r'| ==> r'[i] != r'[j])
            && (forall i :: 0 <= i <= k ==> r'[i] == r[i])
            && r'[k + 1] == item && r'[Succ(k, |r'|)] == item && r'[Succ(k + 1, |r'|)] == r[Succ(k, |r|)]
            && (forall i :: k + 1 < i < |r'| ==> r'[i] == r[i - 1])
            && (forall i :: 0 <= i < k ==> r'[Succ(i, |r'|)] == r[Succ(i, |r|)])
            && (forall i :: k + 1 < i < |r'| ==> r'[Succ(i, |r'|)] == r[Succ(i - 1, |r|)])
  {
  }

  /** enqueue: item at the tail of the queue. */
  method Enqueue(head: Node, item: Node, ghost r: seq<Node>)
    requires Ring(r) && r[0] == head && item !in r
    modifies item, head`prev, head.prev`next
    ensures Ring(r + [item])
  {
    ghost var k, r' := |r| - 1, r[..|r| - 1 + 1] + [item] + r[|r| - 1 + 1..];
    assert r' == r + [item];
    assert r[Succ(k, |r|)] == head && head.prev == r[k];
    item.next := head;
    item.prev := head.prev;
    item.prev.next := item;
    head.prev := item;
    forall i | 0 <= i < |r'| ensures r'[i].next == r'[Succ(i, |r'|)] && r'[Succ(i, |r'|)].prev == r'[i] {
      if i < k {
        assert r'[i] == r[i] && r'[i + 1] == r[i + 1] && r[i].next == r[Succ(i, |r|)];
      }
    }
  }

  /** list_remove and queue_remove: node k is taken out of the ring. */
  method Remove(item: Node, ghost r: seq<Node>, ghost k: nat)
    requires Ring(r) && k < |r| && r[k] == item && |r| > 1
    modifies item.prev`next, item.next`prev
    ensures Ring(r[..k] + r[k + 1..])
  {
    ghost var n, r' := |r|, r[..k] + r[k + 1..];
    ghost var p := if k == 0 then n - 1 else k - 1;
    assert r[p].next == r[Succ(p, n)] && r[Succ(p, n)].prev == r[p] && Succ(p, n) == k;
    item.prev.next := item.next;
    item.next.prev := item.prev;
    assert r[p].next == r[Succ(k, n)] && r[Succ(k, n)].prev == r[p];
    forall i | 0 <= i < |r'| ensures r'[i].next == r'[Succ(i, |r'|)] && r'[Succ(i, |r'|)].prev == r'[i] {
      ghost var j := if i < k then i else i + 1;
      assert r'[i] == r[j] && j != k;
      ghost var next := if j == p then Succ(k, n) else Succ(j, n);
      assert old(r[j].next == r[Succ(j, n)] && r[Succ(j, n)].prev == r[j]);
      assert r'[Succ(i, |r'|)] == r[next] && next != k;
    }
  }

  /** dequeue: the node after the head is taken out, if there is one. */
  method Dequeue(head: Node, ghost r: seq<Node>) returns (item: Node?)
    requires Ring(r) && r[0] == head
    modifies head`next, head.next.next`prev
    ensures item == null <==> |r| == 1
    ensures item != null ==> item == r[1] && Ring([head] + r[2..])
    ensures item == null ==> Ring(r)
  {
    if head.next == head {
      return null;
    }
    ghost var r' := r[..1] + r[2..];
    item := head.next;
    assert item == r[1] && r[Succ(1, |r|)] == item.next;
    item.next.prev := head;
    head.next := item.next;
    assert r' == [head] + r[2..];
    forall i | 0 <= i < |r'| ensures r'[i].next == r'[Succ(i, |r'|)] && r'[Succ(i, |r'|)].prev == r'[i] {
      ghost var j := if i < 1 then i else i + 1;
      assert r'[i] == r[j] && old(r[j].next) == r[Succ(j, |r|)];
    }
  }
}
