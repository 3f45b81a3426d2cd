// The circular intrusive list: a head node and the member nodes, linked through their own prev and
// next pointers. The list a head stands for is the sequence of nodes met from it.

module IntrusiveList {
  /** A list node embedded in a connection slot; for a head the other fields are unused. */
  class Node {
    var prev: Node?
    var next: Node?
    var status: int
    var socket: int

    constructor ()
      ensures prev == null && next == null && status == AVAILABLE && socket == -1
    {
      prev, next, status, socket := null, null, AVAILABLE, -1;
    }
  }

  const AVAILABLE := -1
  const PENDING := 0

  function Succ(i: nat, n: nat): nat
    requires i < n
  {
    if i + 1 == n then 0 else i + 1
  }

  // The quantifiers below are instantiated by naming Apart and Linked.

  predicate Apart(xs: seq<Node>, i: nat, j: nat)
    requires i < |xs| && j < |xs|
  {
    i != j ==> xs[i] != xs[j]
  }

  ghost predicate NoDup(xs: seq<Node>) {
    forall i, j {:trigger Apart(xs, i, j)} :: 0 <= i < |xs| && 0 <= j < |xs| ==> Apart(xs, i, j)
  }

  /** The link from the i-th node of a circle to the next, in both directions. */
  ghost predicate Linked(c: seq<Node>, i: nat)
    reads c`prev, c`next
    requires i < |c|
  {
    c[i].next == c[Succ(i, |c|)] && c[Succ(i, |c|)].prev == c[i]
  }

  /** The nodes of c are linked into one circle in both directions. */
  ghost predicate Circle(c: seq<Node>)
    reads c`prev, c`next
  {
    NoDup(c) && forall i {:trigger Linked(c, i)} :: 0 <= i < |c| ==> Linked(c, i)
  }

  /** The head stands for exactly these members, in this order. */
  ghost predicate IsList(head: Node, xs: seq<Node>)
    reads head`prev, head`next, xs`prev, xs`next
  {
    Circle([head] + xs)
  }

  method ListInit(head: Node)
    modifies head`prev, head`next
    ensures IsList(head, [])
  {
    head.next := head;
    head.prev := head;
  }

  /** Appends a node that is in no list. */
  method ListAdd(node: Node, head: Node, ghost xs: seq<Node>)
    requires IsList(head, xs) && node != head && node !in xs && head.prev != null
    modifies node`prev, node`next, head`prev, head.prev`next
    ensures IsList(head, xs + [node])
  {
    ghost var c := [head] + xs;
    assert Linked(c, |xs|);
    Insert(node, head.prev, head);
    ghost var d := c + [node];
    assert [head] + (xs + [node]) == d;
    forall i, j | 0 <= i < |d| && 0 <= j < |d| ensures Apart(d, i, j) {
      assert i < |c| && j < |c| ==> Apart(c, i, j);
    }
    forall i | 0 <= i < |d| ensures Linked(d, i) {
      if i < |xs| {
        assert old(Linked(c, i)) && Apart(c, i, |xs|) && Apart(c, i + 1, 0);
      }
    }
  }

  method Insert(node: Node, prev: Node, next: Node)
    requires node != prev && node != next
    modifies node`prev, node`next, prev`next, next`prev
    ensures next.prev == node
    ensures node.prev == prev && node.next == next && prev.next == node
  {
    next.prev := node;
    node.next := next;
    node.prev := prev;
    prev.next := node;
  }

  lemma NoDupWithout(c: seq<Node>, k: nat)
    requires NoDup(c) && k < |c|
    ensures NoDup(c[..k] + c[k + 1..])
  {
    var d := c[..k] + c[k + 1..];
    forall i, j | 0 <= i < |d| && 0 <= j < |d| ensures Apart(d, i, j) {
      assert Apart(c, if i < k then i else i + 1, if j < k then j else j + 1);
    }
  }

  /** When the two neighbours of the member at m point to each other and all other links are those of
      the circle c, the members without m form a circle. */
  lemma CircleWithout(c: seq<Node>, m: nat)
    requires NoDup(c) && 0 < m < |c|
    requires c[m - 1].next == c[Succ(m, |c|)] && c[Succ(m, |c|)].prev == c[m - 1]
    requires forall i {:trigger Linked(c, i)} :: 0 <= i < |c| && i != m && i != m - 1 ==> Linked(c, i)
    ensures Circle(c[..m] + c[m + 1..])
  {
    var d := c[..m] + c[m + 1..];
    NoDupWithout(c, m);
    forall i | 0 <= i < |d| ensures Linked(d, i) {
      var j := if i < m then i else i + 1;
      assert j != m - 1 ==> Linked(c, j);
    }
  }

  method Unlink(prev: Node, next: Node)
    modifies prev`next, next`prev
    ensures prev.next == next && next.prev == prev
  {
    prev.next := next;
    next.prev := prev;
  }

  /** Removes the k-th member. */
  method ListDel(node: Node, ghost head: Node, ghost xs: seq<Node>, ghost k: nat)
    requires IsList(head, xs) && k < |xs| && xs[k] == node && node.prev != null && node.next != null
    modifies node`prev, node`next, node.prev`next, node.next`prev
    ensures IsList(head, xs[..k] + xs[k + 1..])
    ensures node.prev == null && node.next == null
  {
    ghost var c, m := [head] + xs, k + 1;
    ghost var sm := Succ(m, |c|);
    assert Linked(c, k) && Linked(c, m);
    Unlink(node.prev, node.next);
    node.prev := null;
    node.next := null;
    assert Apart(c, k, m) && Apart(c, sm, m);
    forall i | 0 <= i < |c| && i != m && i != k ensures Linked(c, i) {
      var si := Succ(i, |c|);
      assert old(Linked(c, i)) && si != m && si != sm;
      assert Apart(c, i, k) && Apart(c, i, m) && Apart(c, si, m) && Apart(c, si, sm);
    }
    CircleWithout(c, m);
    assert [head] + (xs[..k] + xs[k + 1..]) == c[..m] + c[m + 1..];
  }

  /** The position of a node on the list follows its links. */
  lemma FollowNext(head: Node, xs: seq<Node>, i: nat)
    requires IsList(head, xs) && i <= |xs|
    ensures var c := [head] + xs; c[i].next == if i == |xs| then head else xs[i]
  {
    assert Linked([head] + xs, i);
  }

  lemma Members(head: Node, xs: seq<Node>)
    requires NoDup([head] + xs)
    ensures head !in xs && NoDup(xs)
  {
    var c := [head] + xs;
    forall i | 0 <= i < |xs| ensures xs[i] != head {
      assert Apart(c, 0, i + 1);
    }
    forall i, j | 0 <= i < |xs| && 0 <= j < |xs| ensures Apart(xs, i, j) {
      assert Apart(c, i + 1, j + 1);
    }
  }

  method IsEmpty(head: Node, ghost xs: seq<Node>) returns (r: int)
    requires IsList(head, xs)
    ensures r == if xs == [] then 0 else -1
  {
    FollowNext(head, xs, 0);
    Members(head, xs);
    r := if head.next == head then 0 else -1;
  }

  /** The first member with the given socket. */
  function FirstWith(xs: seq<Node>, fd: int): (i: nat)
    reads xs`socket
    ensures i <= |xs| && (i < |xs| ==> xs[i].socket == fd)
    ensures forall k :: 0 <= k < i ==> xs[k].socket != fd
  {
    if xs == [] || xs[0].socket == fd then 0
    else
      var i := FirstWith(xs[1..], fd);
      assert forall k :: 0 < k < |xs| ==> xs[k] == xs[1..][k - 1];
      i + 1
  }

  /** Walks the list for a member with the given socket. */
  method Find(head: Node, ghost xs: seq<Node>, fd: int) returns (found: Node?, ghost at: nat)
    requires IsList(head, xs)
    ensures at == FirstWith(xs, fd)
    ensures found == if FirstWith(xs, fd) == |xs| then null else xs[FirstWith(xs, fd)]
  {
    at := 0;
    Members(head, xs);
    FollowNext(head, xs, 0);
    var curr := head.next;
    while curr != head
      invariant at <= |xs| && curr == (if at == |xs| then head else xs[at])
      invariant forall k :: 0 <= k < at ==> xs[k].socket != fd
      decreases |xs| - at
    {
      if curr.socket == fd {
        return curr, at;
      }
      FollowNext(head, xs, at + 1);
      curr := curr.next;
      at := at + 1;
    }
    assert at == |xs|;
    found := null;
  }

  /** The members that are not in the set, in order. */
  function Without(xs: seq<Node>, kill: set<Node>): (ys: seq<Node>)
    ensures forall x :: x in ys ==> x in xs
  {
    if xs == [] then []
    else
      var n := |xs| - 1;
      Without(xs[..n], kill) + if xs[n] in kill then [] else [xs[n]]
  }

  /** What is left of a list when the walk has dealt with its first i members. */
  function LeftAt(xs: seq<Node>, kill: set<Node>, i: nat): (ys: seq<Node>)
    requires i <= |xs|
    ensures forall x :: x in ys ==> x in xs
  {
    Without(xs[..i], kill) + xs[i..]
  }

  lemma LeftNext(xs: seq<Node>, kill: set<Node>, i: nat)
    requires i < |xs|
    ensures var k, ys := |Without(xs[..i], kill)|, LeftAt(xs, kill, i);
            && k < |ys| && ys[k] == xs[i] && (k + 1 == |ys| <==> i + 1 == |xs|)
            && (i + 1 < |xs| ==> ys[k + 1] == xs[i + 1])
            && LeftAt(xs, kill, i + 1) == if xs[i] in kill then ys[..k] + ys[k + 1..] else ys
  {
    var kept := Without(xs[..i], kill);
    assert xs[..i + 1][..i] == xs[..i] && xs[..i + 1][i] == xs[i];
    assert xs[i..] == [xs[i]] + xs[i + 1..];
    assert kept + xs[i..] == (kept + [xs[i]]) + xs[i + 1..];
  }

  lemma LeftEnds(xs: seq<Node>, kill: set<Node>)
    ensures LeftAt(xs, kill, 0) == xs && LeftAt(xs, kill, |xs|) == Without(xs, kill)
  {
    assert xs[..|xs|] == xs && xs[|xs|..] == [];
  }

  /** The neighbours of a member are on the list as well. */
  lemma LinksInside(head: Node, xs: seq<Node>, k: nat)
    requires IsList(head, xs) && k < |xs|
    ensures xs[k].prev != null && (xs[k].prev == head || xs[k].prev in xs)
    ensures xs[k].next != null && (xs[k].next == head || xs[k].next in xs)
  {
    var c := [head] + xs;
    assert Linked(c, k) && Linked(c, k + 1);
    assert k > 0 ==> c[k] == xs[k - 1];
    assert k + 1 < |xs| ==> c[k + 2] == xs[k + 1];
  }

  /** Walks a list with the deletion-safe loop, deleting some of its members on the way: every member
      of the original list is visited once, in order, and exactly the others stay. */
  method DeleteDuringWalk(head: Node, ghost xs: seq<Node>, kill: set<Node>) returns (visited: seq<Node>)
    requires IsList(head, xs)
    modifies head`prev, head`next, xs`prev, xs`next
    ensures visited == xs && IsList(head, Without(xs, kill))
  {
    visited := [];
    ghost var i := 0;
    Members(head, xs);
    LeftEnds(xs, kill);
    FollowNext(head, xs, 0);
    var curr: Node := head.next;
    while curr != head
      invariant i <= |xs| && curr == (if i == |xs| then head else xs[i]) && visited == xs[..i]
      invariant IsList(head, LeftAt(xs, kill, i))
      decreases |xs| - i
    {
      NextOnWalk(head, xs, kill, i);
      var n: Node := curr.next;
      WalkedOne(xs, i);
      visited := visited + [curr];
      WalkStep(head, xs, kill, i, curr);
      curr := n;
      i := i + 1;
    }
    assert xs[..i] == xs;
  }

  lemma WalkedOne(xs: seq<Node>, i: nat)
    requires i < |xs|
    ensures xs[..i + 1] == xs[..i] + [xs[i]]
  {
  }

  /** The node saved before the current one may be deleted is the next of the original list. */
  lemma NextOnWalk(head: Node, xs: seq<Node>, kill: set<Node>, i: nat)
    requires i < |xs| && IsList(head, LeftAt(xs, kill, i))
    ensures xs[i].next == if i + 1 == |xs| then head else xs[i + 1]
  {
    var k, now := |Without(xs[..i], kill)|, LeftAt(xs, kill, i);
    LeftNext(xs, kill, i);
    FollowNext(head, now, k + 1);
    assert ([head] + now)[k + 1] == xs[i];
  }

  /** The deletion inside the walk. */
  method WalkStep(head: Node, ghost xs: seq<Node>, kill: set<Node>, ghost i: nat, curr: Node)
    requires i < |xs| && curr == xs[i] && IsList(head, LeftAt(xs, kill, i))
    modifies head`prev, head`next, xs`prev, xs`next
    ensures IsList(head, LeftAt(xs, kill, i + 1))
  {
    LeftNext(xs, kill, i);
    if curr in kill {
      ghost var k, now := |Without(xs[..i], kill)|, LeftAt(xs, kill, i);
      LinksInside(head, now, k);
      ListDel(curr, head, now, k);
    }
  }

  // --- Moving between two lists ---

  predicate Disjoint(from: Node, xs: seq<Node>, to: Node, ys: seq<Node>) {
    from != to && from !in ys && to !in xs && forall x :: x in xs ==> x !in ys
  }

  /** The head always has neighbours. */
  lemma HeadLinks(head: Node, xs: seq<Node>)
    requires IsList(head, xs)
    ensures head.prev != null && (head.prev == head || head.prev in xs)
    ensures head.next != null && (head.next == head || head.next in xs)
  {
    var c := [head] + xs;
    assert Linked(c, |xs|) && Linked(c, 0);
    assert xs != [] ==> c[|xs|] == xs[|xs| - 1] && c[1] == xs[0];
  }

  lemma RemovedIsGone(xs: seq<Node>, k: nat)
    requires NoDup(xs) && k < |xs|
    ensures xs[k] !in xs[..k] + xs[k + 1..]
  {
    var ys := xs[..k] + xs[k + 1..];
    forall i | 0 <= i < |ys| ensures ys[i] != xs[k] {
      assert Apart(xs, if i < k then i else i + 1, k);
    }
  }

  /** Moves the k-th member of one list to the end of another; both stay well-formed and apart. */
  method Move(node: Node, from: Node, ghost xs: seq<Node>, ghost k: nat, to: Node, ghost ys: seq<Node>)
    requires IsList(from, xs) && IsList(to, ys) && Disjoint(from, xs, to, ys)
    requires k < |xs| && xs[k] == node
    modifies from`prev, from`next, to`prev, to`next, xs`prev, xs`next, ys`prev, ys`next
    ensures IsList(from, xs[..k] + xs[k + 1..]) && IsList(to, ys + [node])
    ensures Disjoint(from, xs[..k] + xs[k + 1..], to, ys + [node])
  {
    Members(from, xs);
    RemovedIsGone(xs, k);
    LinksInside(from, xs, k);
    ghost var c, rest := [to] + ys, xs[..k] + xs[k + 1..];
    ghost var d := [from] + rest;
    ListDel(node, from, xs, k);
    forall i | 0 <= i < |c| ensures Linked(c, i) {
      assert old(Linked(c, i));
      assert c[i] in c && c[Succ(i, |c|)] in c;
      assert forall x :: x in c ==> x.prev == old(x.prev) && x.next == old(x.next);
    }
    HeadLinks(to, ys);
    label between:
    ListAdd(node, to, ys);
    forall i | 0 <= i < |d| ensures Linked(d, i) {
      assert old@between(Linked(d, i));
      assert d[i] in d && d[Succ(i, |d|)] in d;
      assert forall x :: x in d ==> x.prev == old@between(x.prev) && x.next == old@between(x.next);
    }
    assert Circle(d);
  }
}
