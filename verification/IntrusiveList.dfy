/**
 list.c: circular doubly linked lists whose links live in the elements. A list is a head node and the
 sequence of nodes reached from it; insertion and removal are pointer surgery on at most three nodes.
 */
module IntrusiveList {

  /** struct timeval. */
  datatype Timeval = Timeval(sec: int, usec: int)

  function Micros(t: Timeval): (us: int) { t.sec * 1_000_000 + t.usec }

  /** A list_t that is the first member of a struct timer, so that the two pointers are the same. A list
      head uses the links only. */
  class Node {
    var prev: Node?
    var next: Node?
    var used: bool
    var timeout: Timeval

    /** timer_init. */
    constructor Timer()
      ensures Unattached() && !used && timeout == Timeval(0, 0)
    {
      prev, next := null, null;
      used := false;
      timeout := Timeval(0, 0);
    }

    /** list_init_head. */
    constructor Head()
      ensures Ring(this, [])
    {
      prev, next := this, this;
      used := false;
      timeout := Timeval(0, 0);
    }

    /** list_unattached. */
    predicate Unattached()
      reads this
    {
      prev == null && next == null
    }

    /** list_is_empty. */
    predicate IsEmpty()
      reads this
    {
      prev == this && next == this
    }
  }

  ghost predicate Distinct(s: seq<Node>) {
    forall i, j :: 0 <= i < j < |s| ==> s[i] != s[j]
  }

  /** The i-th node of the circle; the head is before the first and after the last. */
  ghost function Elem(head: Node, s: seq<Node>, i: int): (n: Node) {
    if 0 <= i < |s| then s[i] else head
  }

  ghost predicate LinkedAt(head: Node, s: seq<Node>, i: int)
    requires 0 <= i < |s|
    reads s
  {
    s[i].next == Elem(head, s, i + 1) && s[i].prev == Elem(head, s, i - 1)
  }

  /** head and s form a well-formed circle. */
  ghost predicate Ring(head: Node, s: seq<Node>)
    reads head, s
  {
    && head !in s && Distinct(s)
    && head.next == Elem(head, s, 0) && head.prev == Elem(head, s, |s| - 1)
    && forall i :: 0 <= i < |s| ==> LinkedAt(head, s, i)
  }

  lemma RingIsEmpty(head: Node, s: seq<Node>)
    requires Ring(head, s)
    ensures head.IsEmpty() <==> s == []
  {
    if s != [] {
      assert s[0] in s;
    }
  }

  /** list_insert between two neighbours. */
  method Insert(node: Node, prev: Node, next: Node, ghost head: Node, ghost s: seq<Node>, ghost k: nat)
    requires Ring(head, s) && k <= |s| && node !in s && node != head
    requires prev == Elem(head, s, k - 1) && next == Elem(head, s, k)
    modifies node`prev, node`next, prev`next, next`prev
    ensures Ring(head, s[..k] + [node] + s[k..])
  {
    ghost var r := s[..k] + [node] + s[k..];
    assert forall i :: 0 <= i < |s| ==> LinkedAt(head, s, i);
    prev.next := node;
    next.prev := node;
    node.prev := prev;
    node.next := next;
    forall i | 0 <= i < |r|
      ensures LinkedAt(head, r, i)
    {
      if i < k {
        assert old(LinkedAt(head, s, i));
      } else if i > k {
        assert old(LinkedAt(head, s, i - 1));
      }
    }
  }

  /** list_remove. */
  method Remove(node: Node, ghost head: Node, ghost s: seq<Node>, ghost k: nat)
    requires Ring(head, s) && k < |s| && s[k] == node
    modifies node`prev, node`next, Elem(head, s, k - 1)`next, Elem(head, s, k + 1)`prev
    ensures Ring(head, s[..k] + s[k + 1..]) && node.Unattached()
  {
    ghost var r := s[..k] + s[k + 1..];
    assert LinkedAt(head, s, k);
    var prev, next := node.prev, node.next;
    prev.next := next;
    next.prev := prev;
    node.prev, node.next := null, null;
    forall i | 0 <= i < |r|
      ensures LinkedAt(head, r, i)
    {
      if i < k {
        assert old(LinkedAt(head, s, i));
      } else {
        assert old(LinkedAt(head, s, i + 1));
      }
    }
  }

  /** list_push_front and list_add. */
  method PushFront(head: Node, node: Node, ghost s: seq<Node>)
    requires Ring(head, s) && node !in s && node != head
    modifies node`prev, node`next, head`next, Elem(head, s, 0)`prev
    ensures Ring(head, [node] + s)
  {
    Insert(node, head, head.next, head, s, 0);
    assert s[..0] + [node] + s[0..] == [node] + s;
  }

  /** list_push_back. */
  method PushBack(head: Node, node: Node, ghost s: seq<Node>)
    requires Ring(head, s) && node !in s && node != head
    modifies node`prev, node`next, head`prev, Elem(head, s, |s| - 1)`next
    ensures Ring(head, s + [node])
  {
    Insert(node, head.prev, head, head, s, |s|);
    assert s[..|s|] + [node] + s[|s|..] == s + [node];
  }
}
