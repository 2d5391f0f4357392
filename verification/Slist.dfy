/** The singly linked list of rt-thread/include/rtservice.h (`rt_slist_*`). Its
    head is a node like the others. */
module Slist {
  import List

  class Node {
    var next: Node?

    /** rt_slist_init. */
    constructor ()
      ensures Chain([this])
    {
      next := null;
    }
  }

  ghost function Nexts(r: seq<Node>): seq<Node?>
    reads r
  {
    seq(|r|, i requires 0 <= i < |r| reads r => r[i].next)
  }

  /** What the links of the nodes of `r` are when they are a list. */
  ghost function Links(r: seq<Node>): (ns: seq<Node?>)
  {
    seq(|r|, i requires 0 <= i < |r| => if i + 1 < |r| then r[i + 1] else null)
  }

  /** `r` lists a head and the nodes behind it, up to the one that links to
      nothing. */
  ghost predicate Chain(r: seq<Node>)
    reads r
  {
    r != [] && List.Distinct(r) && Nexts(r) == Links(r)
  }

  lemma NextAt(r: seq<Node>, i: nat)
    requires Chain(r) && i < |r|
    ensures r[i].next == if i + 1 < |r| then r[i + 1] else null
  {
    assert Nexts(r)[i] == Links(r)[i];
  }

  /** rt_slist_append. */
  method Append(l: Node, n: Node, ghost r: seq<Node>)
    requires Chain(r) && r[0] == l && n !in r
    modifies r[|r| - 1], n
    ensures Chain(r + [n])
  {
    var node := l;
    ghost var k := 0;
    NextAt(r, 0);
    while node.next != null
      modifies {}
      invariant k < |r| && node == r[k]
      invariant node.next == if k + 1 < |r| then r[k + 1] else null
      decreases |r| - k
    {
      node := node.next;
      k := k + 1;
      NextAt(r, k);
    }
    ghost var ns := Nexts(r);
    node.next := n;
    n.next := null;
    assert Nexts(r + [n]) == ns[k := n] + [null];
    assert ns[k := n] + [null] == Links(r + [n]);
  }

  /** rt_slist_insert, behind the head or any other node of a list. */
  method Insert(l: Node, n: Node, ghost r: seq<Node>, ghost i: nat)
    requires Chain(r) && i < |r| && r[i] == l && n !in r
    modifies l, n
    ensures Chain(List.Insert(r, i + 1, n))
  {
    ghost var ns, r' := Nexts(r), List.Insert(r, i + 1, n);
    NextAt(r, i);
    n.next := l.next;
    l.next := n;
    assert Nexts(r') == List.Insert(ns[i := n], i + 1, n.next);
    assert Nexts(r') == Links(r');
  }

  /** rt_slist_len. */
  method Len(l: Node, ghost r: seq<Node>) returns (len: nat)
    requires Chain(r) && r[0] == l
    ensures len == |r| - 1
  {
    len := 0;
    NextAt(r, 0);
    var list := l.next;
    while list != null
      invariant len < |r| && list == if len + 1 < |r| then r[len + 1] else null
      decreases |r| - len
    {
      NextAt(r, len + 1);
      list := list.next;
      len := len + 1;
    }
  }

  /** rt_slist_tail. */
  method Tail(l: Node, ghost r: seq<Node>) returns (tail: Node)
    requires Chain(r) && r[0] == l
    ensures tail == r[|r| - 1]
  {
    tail := l;
    ghost var k := 0;
    NextAt(r, 0);
    while tail.next != null
      invariant k < |r| && tail == r[k]
      invariant tail.next == if k + 1 < |r| then r[k + 1] else null
      decreases |r| - k
    {
      tail := tail.next;
      k := k + 1;
      NextAt(r, k);
    }
  }

  /** Taking node k out leaves the other links as a list needs them. */
  lemma Bypassed(r: seq<Node>, ns: seq<Node?>, k: nat)
    requires List.Distinct(r) && ns == Links(r) && 0 < k < |r|
    ensures List.Delete(ns[k - 1 := ns[k]], k) == Links(List.Delete(r, k))
  {
  }

  /** rt_slist_pop: the first node behind the head, or null when there is none. */
  method Pop(l: Node, ghost r: seq<Node>) returns (node: Node?)
    requires Chain(r) && r[0] == l
    modifies r
    ensures |r| == 1 ==> node == null && Chain(r)
    ensures |r| > 1 ==> node == r[1] && r[1].next == null && Chain(List.Delete(r, 1))
  {
    node := l;
    NextAt(r, 0);
    node := node.next;
    if node != null {
      NextAt(r, 1);
      ghost var ns := Nexts(r);
      l.next := node.next;
      node.next := null;
      assert Nexts(List.Delete(r, 1)) == List.Delete(ns[0 := ns[1]], 1);
      Bypassed(r, ns, 1);
    }
  }

  /** rt_slist_remove: an absent node, or the head itself, changes no link. */
  method Remove(l: Node, n: Node, ghost r: seq<Node>) returns (head: Node)
    requires Chain(r) && r[0] == l
    modifies r
    ensures head == l
    ensures n !in r[1..] ==> Nexts(r) == old(Nexts(r))
    ensures forall k | 1 <= k < |r| && r[k] == n :: Chain(List.Delete(r, k)) && n.next == null
  {
    var node := l;
    ghost var k := 0;
    NextAt(r, 0);
    while node.next != null && node.next != n
      modifies {}
      invariant k < |r| && node == r[k] && n !in r[1..k + 1]
      invariant node.next == if k + 1 < |r| then r[k + 1] else null
      decreases |r| - k
    {
      node := node.next;
      k := k + 1;
      NextAt(r, k);
    }
    if node.next != null {
      ghost var ns := Nexts(r);
      NextAt(r, k + 1);
      node.next := node.next.next;
      n.next := null;
      assert Nexts(List.Delete(r, k + 1)) == List.Delete(ns[k := ns[k + 1]], k + 1);
      Bypassed(r, ns, k + 1);
    }
    head := l;
  }
}
