/** The circular doubly linked list of rt-thread/include/rtservice.h
    (`rt_list_*`), whose head is a node like the others. */
module List {

  predicate Distinct<T(==)>(s: seq<T>) {
    forall i, j | 0 <= i < j < |s| :: s[i] != s[j]
  }

  function After(n: nat, i: nat): nat
    requires i < n
  {
    if i + 1 < n then i + 1 else 0
  }

  function Before(n: nat, i: nat): nat
    requires i < n
  {
    if i == 0 then n - 1 else i - 1
  }

  /** The nodes of `r` with next links `ns` and prev links `ps` are one ring. */
  predicate Linked<T(==)>(r: seq<T>, ns: seq<T>, ps: seq<T>) {
    && |r| == |ns| == |ps|
    && Distinct(r)
    && (forall i | 0 <= i < |r| :: ns[i] == r[After(|r|, i)])
    && (forall i | 0 <= i < |r| :: ps[i] == r[Before(|r|, i)])
  }

  /** x between the elements k-1 and k. */
  function Insert<T>(s: seq<T>, k: nat, x: T): (s': seq<T>)
    requires k <= |s|
    ensures |s'| == |s| + 1 && s'[k] == x
    ensures forall i | 0 <= i < k :: s'[i] == s[i]
    ensures forall i | k < i <= |s| :: s'[i] == s[i - 1]
  {
    s[..k] + [x] + s[k..]
  }

  function Delete<T>(s: seq<T>, k: nat): (s': seq<T>)
    requires k < |s|
    ensures |s'| == |s| - 1
    ensures forall i | 0 <= i < k :: s'[i] == s[i]
    ensures forall i | k <= i < |s'| :: s'[i] == s[i + 1]
  {
    s[..k] + s[k + 1..]
  }

  /** The place behind the last element is that of the first one. */
  function Wrap(n: nat, k: nat): nat
    requires 0 < n && k <= n
  {
    if k < n then k else 0
  }

  /** Redirecting two links and setting two makes the ring one node longer. */
  lemma Spliced<T>(r: seq<T>, ns: seq<T>, ps: seq<T>, k: nat, x: T)
    requires Linked(r, ns, ps) && 1 <= k <= |r| && x !in r
    ensures Linked(Insert(r, k, x),
                   Insert(ns[k - 1 := x], k, r[Wrap(|r|, k)]),
                   Insert(ps[Wrap(|r|, k) := x], k, r[k - 1]))
  {
  }

  /** Redirecting two links makes the ring one node shorter. */
  lemma Unspliced<T>(r: seq<T>, ns: seq<T>, ps: seq<T>, k: nat)
    requires Linked(r, ns, ps) && k < |r| && |r| > 1
    ensures Linked(Delete(r, k),
                   Delete(ns[Before(|r|, k) := ns[k]], k),
                   Delete(ps[After(|r|, k) := ps[k]], k))
  {
  }

  // ----- the nodes -----

  class Node {
    var next: Node
    var prev: Node

    /** rt_list_init. */
    constructor ()
      ensures Alone(this) && Ring([this])
    {
      next := this;
      prev := this;
    }
  }

  ghost function Nexts(r: seq<Node>): seq<Node>
    reads r
  {
    seq(|r|, i requires 0 <= i < |r| reads r => r[i].next)
  }

  ghost function Prevs(r: seq<Node>): seq<Node>
    reads r
  {
    seq(|r|, i requires 0 <= i < |r| reads r => r[i].prev)
  }

  /** `r` lists the nodes of one ring in next order; prev is the reverse. */
  ghost predicate Ring(r: seq<Node>)
    reads r
  {
    r != [] && Linked(r, Nexts(r), Prevs(r))
  }

  lemma InsertLinks(r: seq<Node>, k: nat, n: Node)
    requires k <= |r|
    ensures Nexts(Insert(r, k, n)) == Insert(Nexts(r), k, n.next)
    ensures Prevs(Insert(r, k, n)) == Insert(Prevs(r), k, n.prev)
  {
  }

  /** The links after the four stores of either insertion are those of a ring. */
  lemma Joined(r: seq<Node>, ns: seq<Node>, ps: seq<Node>, k: nat, n: Node)
    requires Linked(r, ns, ps) && 1 <= k <= |r| && n !in r
    requires Nexts(r) == ns[k - 1 := n] && Prevs(r) == ps[Wrap(|r|, k) := n]
    requires n.next == r[Wrap(|r|, k)] && n.prev == r[k - 1]
    ensures Ring(Insert(r, k, n))
  {
    Spliced(r, ns, ps, k, n);
    InsertLinks(r, k, n);
  }

  lemma DeleteLinks(r: seq<Node>, k: nat)
    requires k < |r|
    ensures Nexts(Delete(r, k)) == Delete(Nexts(r), k)
    ensures Prevs(Delete(r, k)) == Delete(Prevs(r), k)
  {
  }

  /** A node that is in no list: a ring of one node. */
  ghost predicate Alone(n: Node)
    reads n
  {
    n.next == n && n.prev == n
  }

  /** rt_list_insert_after: n, which is not in the ring, goes behind node i. */
  method InsertAfter(l: Node, n: Node, ghost r: seq<Node>, ghost i: nat)
    requires Ring(r) && i < |r| && r[i] == l && n !in r
    modifies l`next, l.next`prev, n
    ensures Ring(Insert(r, i + 1, n))
  {
    ghost var ns, ps := Nexts(r), Prevs(r);
    ghost var j := Wrap(|r|, i + 1);
    assert ns[i] == l.next == r[j];
    l.next.prev := n;
    n.next := l.next;
    l.next := n;
    n.prev := l;
    assert Nexts(r) == ns[i := n];
    assert Prevs(r) == ps[j := n];
    Joined(r, ns, ps, i + 1, n);
  }

  /** rt_list_insert_before; in front of the head of a list means at its end. */
  method InsertBefore(l: Node, n: Node, ghost r: seq<Node>, ghost i: nat)
    requires Ring(r) && i < |r| && r[i] == l && n !in r
    modifies l`prev, l.prev`next, n
    ensures Ring(Insert(r, if i == 0 then |r| else i, n))
  {
    ghost var ns, ps, k := Nexts(r), Prevs(r), if i == 0 then |r| else i;
    assert ns[i] == r[i].next && ps[i] == r[i].prev;
    l.prev.next := n;
    n.prev := l.prev;
    l.prev := n;
    n.next := l;
    assert Nexts(r) == ns[k - 1 := n];
    assert Prevs(r) == ps[i := n];
    Joined(r, ns, ps, k, n);
  }

  /** rt_list_remove: the node leaves its ring and stands alone; a node
      that is alone stays as it is. */
  method Remove(n: Node, ghost r: seq<Node>, ghost i: nat)
    requires Ring(r) && i < |r| && r[i] == n
    modifies n, n.next`prev, n.prev`next
    ensures Alone(n) && (|r| > 1 ==> Ring(Delete(r, i)))
  {
    ghost var ns, ps := Nexts(r), Prevs(r);
    assert ns[i] == r[i].next && ps[i] == r[i].prev;
    n.next.prev := n.prev;
    n.prev.next := n.next;
    n.next := n;
    n.prev := n;
    if |r| > 1 {
      Unspliced(r, ns, ps, i);
      assert Nexts(r) == ns[Before(|r|, i) := ns[i]][i := n] && Prevs(r) == ps[After(|r|, i) := ps[i]][i := n];
      DeleteLinks(r, i);
    }
  }

  /** rt_list_isempty. */
  method IsEmpty(l: Node, ghost r: seq<Node>) returns (b: bool)
    requires Ring(r) && r[0] == l
    ensures b <==> r == [l]
  {
    b := l.next == l;
    assert l.next == Nexts(r)[0];
  }

  /** rt_list_len. */
  method Len(l: Node, ghost r: seq<Node>) returns (len: nat)
    requires Ring(r) && r[0] == l
    ensures len == |r| - 1
  {
    len := 0;
    var p := l;
    while p.next != l
      invariant len < |r| && p == r[len]
      decreases |r| - len
    {
      assert p.next == Nexts(r)[len];
      p := p.next;
      len := len + 1;
    }
    assert p.next == Nexts(r)[len];
  }

  /** The elements that are not to go. */
  function Keep<T(==)>(s: seq<T>, drop: T -> bool): (k: seq<T>)
    ensures forall x | x in k :: x in s && !drop(x)
    ensures forall x | x in s && !drop(x) :: x in k
    ensures |k| <= |s|
  {
    if s == [] then [] else
    var k := Keep(s[..|s| - 1], drop);
    if drop(s[|s| - 1]) then k else k + [s[|s| - 1]]
  }

  /** The ring after m visits. */
  function Current<T(==)>(r: seq<T>, m: nat, drop: T -> bool): (c: seq<T>)
    requires m < |r|
    ensures forall x | x in c :: x in r
  {
    [r[0]] + Keep(r[1..1 + m], drop) + r[1 + m..]
  }

  /** Where the next node to visit stands; 0, the head, when all were visited. */
  function Cursor<T(==)>(r: seq<T>, m: nat, drop: T -> bool): (k: nat)
    requires m < |r|
    ensures k < |Current(r, m, drop)| && Current(r, m, drop)[k] == r[Wrap(|r|, 1 + m)]
  {
    if 1 + m < |r| then 1 + |Keep(r[1..1 + m], drop)| else 0
  }

  /** One visit; the node behind the visited one is the next in either case. */
  lemma Visit<T>(r: seq<T>, m: nat, drop: T -> bool)
    requires 1 + m < |r|
    ensures var c, k := Current(r, m, drop), Cursor(r, m, drop);
      && Current(r, m + 1, drop) == (if drop(r[1 + m]) then Delete(c, k) else c)
      && c[After(|c|, k)] == Current(r, m + 1, drop)[Cursor(r, m + 1, drop)]
  {
    assert r[1..2 + m][..m] == r[1..1 + m];
  }

  /** A removed node is not met again. */
  lemma Gone<T>(r: seq<T>, m: nat, drop: T -> bool, i: nat)
    requires Distinct(r) && 1 <= i <= m < |r| && drop(r[i])
    ensures r[i] !in Current(r, m, drop)
  {
  }

  /** Every removed node among the first m of the list stands alone. */
  ghost predicate Apart(r: seq<Node>, m: nat, drop: Node -> bool)
    requires m < |r|
    reads r
  {
    forall i | 1 <= i <= m && drop(r[i]) :: Alone(r[i])
  }

  /** The loop body of a safe iteration, run with pos at node m + 1. */
  method Body(pos: Node, drop: Node -> bool, ghost r: seq<Node>, ghost m: nat)
    requires Distinct(r) && 1 + m < |r| && pos == r[1 + m]
    requires Visited(r, m, drop)
    modifies r
    ensures Visited(r, m + 1, drop)
    ensures old(pos.next) == r[Wrap(|r|, 2 + m)]
  {
    ghost var c, k := Current(r, m, drop), Cursor(r, m, drop);
    Visit(r, m, drop);
    assert pos.next == Nexts(c)[k] && pos.prev == Prevs(c)[k];
    assert pos.next in c && pos.prev in c;
    if drop(pos) {
      forall i | 1 <= i <= m && drop(r[i]) ensures r[i] !in c && r[i] != pos {
        Gone(r, m, drop, i);
      }
      Remove(pos, c, k);
    }
  }

  /** The list after m visits. */
  ghost predicate Visited(r: seq<Node>, m: nat, drop: Node -> bool)
    requires m < |r|
    reads r, Current(r, m, drop)
  {
    Ring(Current(r, m, drop)) && Apart(r, m, drop)
  }

  lemma Ends<T>(r: seq<T>, drop: T -> bool)
    requires 0 < |r|
    ensures Current(r, 0, drop) == r
    ensures Current(r, |r| - 1, drop) == [r[0]] + Keep(r[1..], drop)
  {
    assert r[1..1 + (|r| - 1)] == r[1..];
  }

  lemma Begins(r: seq<Node>, drop: Node -> bool)
    requires Ring(r)
    ensures Visited(r, 0, drop) && r[0].next == r[Wrap(|r|, 1)] && Distinct(r)
  {
    Ends(r, drop);
    assert r[0].next == Nexts(r)[0];
  }

  lemma Longer<T>(r: seq<T>, m: nat)
    requires 1 + m < |r|
    ensures r[1..1 + m] + [r[1 + m]] == r[1..2 + m]
  {
  }

  /** rt_list_for_each_safe over the list of head r[0], with a loop body that
      removes the visited nodes it chooses. */
  method ForEachSafe(head: Node, drop: Node -> bool, ghost r: seq<Node>) returns (visited: seq<Node>)
    requires Ring(r) && r[0] == head
    modifies r
    ensures visited == r[1..]
    ensures Ring([head] + Keep(r[1..], drop)) && Apart(r, |r| - 1, drop)
  {
    visited := [];
    var pos := head.next;
    var n := pos.next;
    ghost var m := 0;
    Begins(r, drop);
    while pos != head
      invariant m < |r| && visited == r[1..1 + m]
      invariant Visited(r, m, drop)
      invariant pos == r[Wrap(|r|, 1 + m)] && n == pos.next
      decreases |r| - m
    {
      visited := visited + [pos];
      Longer(r, m);
      Body(pos, drop, r, m);
      pos := n;
      n := pos.next;
      m := m + 1;
    }
    Ends(r, drop);
  }
}
