// A worker's connection slots: every slot is a node on the busy or on the available queue, moved
// between the two in place; and the choice of the worker for a new connection.

module Scheduler {
  import opened IntrusiveList
  import opened Placement

  function Sockets(xs: seq<Node>): (s: seq<int>)
    reads xs`socket
    ensures |s| == |xs| && forall i :: 0 <= i < |xs| ==> s[i] == xs[i].socket
  {
    if xs == [] then [] else Sockets(xs[..|xs| - 1]) + [xs[|xs| - 1].socket]
  }

  lemma FirstWithIsFirstAt(xs: seq<Node>, fd: int)
    ensures FirstWith(xs, fd) == FirstAt(Sockets(xs), fd)
  {
    var i, j, s := FirstWith(xs, fd), FirstAt(Sockets(xs), fd), Sockets(xs);
    assert j < |xs| ==> s[j] == xs[j].socket;
    assert i < |xs| ==> s[i] == xs[i].socket;
  }

  class SchedNode {
    var accepted: nat
    var closed: nat
    const busyQueue: Node
    const avQueue: Node

    ghost var busy: seq<Node>
    ghost var available: seq<Node>

    /** Two well-formed queues that share no node; available slots are marked so. */
    ghost predicate Valid()
      reads this`busy, this`available, busyQueue, avQueue, busy, available
    {
      && IsList(busyQueue, busy) && IsList(avQueue, available) && Disjoint(busyQueue, busy, avQueue, available)
      && (forall x :: x in available ==> x.status == AVAILABLE && x.socket == -1)
    }

    /** No busy slot is marked available. */
    ghost predicate Marked()
      reads this`busy, busy
    {
      forall x :: x in busy ==> x.status != AVAILABLE
    }

    ghost function Abs(): Load
      reads this, busy
    {
      Load(accepted, closed, Sockets(busy), |available|)
    }

    /** The thread registers itself with all slots available. */
    constructor (capacity: nat)
      ensures Valid() && Marked() && Abs() == Load(0, 0, [], capacity)
      ensures fresh(busyQueue) && fresh(avQueue) && fresh(available)
    {
      busyQueue := new Node();
      avQueue := new Node();
      accepted, closed, busy, available := 0, 0, [], [];
      new;
      ListInit(busyQueue);
      ListInit(avQueue);
      var i := 0;
      while i < capacity
        invariant i == |available| <= capacity && busy == [] && accepted == closed == 0
        invariant Valid() && fresh(busyQueue) && fresh(avQueue) && fresh(available)
      {
        var node := new Node();
        AddSlot(node);
        i := i + 1;
      }
    }

    /** One more available slot. */
    method AddSlot(node: Node)
      requires Valid() && node.status == AVAILABLE && node.socket == -1
      requires node != busyQueue && node != avQueue && node !in busy && node !in available
      modifies this`available, node`prev, node`next, avQueue`prev, avQueue`next, available`prev, available`next
      ensures Valid() && available == old(available) + [node]
    {
      HeadLinks(avQueue, available);
      ListAdd(node, avQueue, available);
      available := available + [node];
    }

    /** The first available slot is taken for a connection. */
    method RegisterClient(fd: int)
      requires Valid() && available != []
      modifies this`busy, this`available, busyQueue, avQueue, busy, available
      ensures Valid() && Abs() == Registered(old(Abs()), fd) && (old(Marked()) ==> Marked())
      ensures busy == old(busy + [available[0]]) && available == old(available[1..])
      ensures var node := old(available[0]); node.socket == fd && node.status == PENDING
    {
      FollowNext(avQueue, available, 0);
      var node: Node := avQueue.next;
      TakeSlot(node, fd);
    }

    /** The first available slot becomes busy with a connection. */
    method TakeSlot(node: Node, fd: int)
      requires Valid() && available != [] && available[0] == node
      modifies this`busy, this`available, busyQueue, avQueue, busy, available
      ensures Valid() && Abs() == Registered(old(Abs()), fd) && (old(Marked()) ==> Marked())
      ensures busy == old(busy + [available[0]]) && available == old(available[1..])
      ensures var node := old(available[0]); node.socket == fd && node.status == PENDING
    {
      assert available[..0] + available[1..] == available[1..];
      MoveFirst(node);
      node.socket := fd;
      node.status := PENDING;
    }

    /** The first available slot moves to the end of the busy ones. */
    method MoveFirst(node: Node)
      requires Valid() && available != [] && available[0] == node
      modifies this`busy, this`available, busyQueue`prev, busyQueue`next, avQueue`prev, avQueue`next
      modifies busy`prev, busy`next, available`prev, available`next
      ensures available == old(available[..0] + available[1..]) && busy == old(busy) + [node]
      ensures IsList(busyQueue, busy) && IsList(avQueue, available) && Disjoint(busyQueue, busy, avQueue, available)
      ensures node !in old(busy)
    {
      ghost var rest := available[..0] + available[1..];
      Members(avQueue, available);
      RemovedIsGone(available, 0);
      Move(node, avQueue, available, 0, busyQueue, busy);
      available := rest;
      busy := busy + [node];
    }

    /** Closes a connection: its slot, if it has one, becomes available again. */
    method RemoveClient(fd: int) returns (r: int)
      requires Valid()
      modifies this`closed, this`busy, this`available, busyQueue, avQueue, busy, available
      ensures Valid() && Abs() == Removed(old(Abs()), fd) && (old(Marked()) ==> Marked())
      ensures r == if fd in old(Abs()).busy then 0 else -1
    {
      var found, at := GetConnection(fd);
      if found == null {
        return -1;
      }
      RemovedAt(Abs(), fd, at);
      FreeSlot(found, at);
      return 0;
    }

    /** The connection in the k-th busy slot is counted as closed and the slot becomes available. */
    method FreeSlot(node: Node, ghost k: nat)
      requires Valid() && k < |busy| && busy[k] == node
      modifies this`closed, this`busy, this`available, busyQueue, avQueue, busy, available
      ensures Valid() && (old(Marked()) ==> Marked())
      ensures Abs() == var l := old(Abs());
                       Load(l.accepted, l.closed + 1, l.busy[..k] + l.busy[k + 1..], l.free + 1)
    {
      closed := closed + 1;
      MoveBack(node, k);
      node.status := AVAILABLE;
      node.socket := -1;
    }

    /** The k-th busy slot moves to the end of the available ones. */
    method MoveBack(node: Node, ghost k: nat)
      requires Valid() && k < |busy| && busy[k] == node
      modifies this`busy, this`available, busyQueue`prev, busyQueue`next, avQueue`prev, avQueue`next
      modifies busy`prev, busy`next, available`prev, available`next
      ensures busy == old(busy[..k] + busy[k + 1..]) && available == old(available) + [node]
      ensures IsList(busyQueue, busy) && IsList(avQueue, available) && Disjoint(busyQueue, busy, avQueue, available)
      ensures node !in busy
    {
      ghost var rest := busy[..k] + busy[k + 1..];
      Members(busyQueue, busy);
      RemovedIsGone(busy, k);
      Move(node, busyQueue, busy, k, avQueue, available);
      busy := rest;
      available := available + [node];
    }

    /** The slot of a connection. */
    method GetConnection(fd: int) returns (found: Node?, ghost at: nat)
      requires Valid()
      ensures Valid() && at == FirstAt(Abs().busy, fd)
      ensures found == if fd in Abs().busy then busy[FirstAt(Abs().busy, fd)] else null
    {
      found, at := Find(busyQueue, busy, fd);
      FirstWithIsFirstAt(busy, fd);
    }

    /** Marks the slot of a connection. */
    method UpdateConnStatus(fd: int, status: int) returns (r: int)
      requires Valid()
      modifies busy`status
      ensures Valid() && Abs() == old(Abs()) && (old(Marked()) && status != AVAILABLE ==> Marked())
      ensures r == if fd in Abs().busy then 0 else -1
      ensures forall i :: 0 <= i < |busy| ==>
                busy[i].status == if fd in Abs().busy && i == FirstAt(Abs().busy, fd) then status else old(busy[i].status)
    {
      var found, at := GetConnection(fd);
      Members(busyQueue, busy);
      if found == null {
        return -1;
      }
      forall i | 0 <= i < |busy| && i != at ensures busy[i] != found {
        assert Apart(busy, i, at);
      }
      found.status := status;
      return 0;
    }
  }

  // --- The choice of a worker ---

  ghost function LoadsOf(sched: seq<SchedNode>): (loads: seq<nat>)
    reads sched
    ensures |loads| == |sched|
    ensures forall i :: 0 <= i < |sched| ==>
              loads[i] == if sched[i].closed <= sched[i].accepted then sched[i].accepted - sched[i].closed else 0
  {
    if sched == [] then []
    else
      var last := sched[|sched| - 1];
      LoadsOf(sched[..|sched| - 1]) + [if last.closed <= last.accepted then last.accepted - last.closed else 0]
  }

  /** The search loop, which stops early at an idle worker. */
  method FindTarget(sched: seq<SchedNode>, capacity: int) returns (target: int)
    requires sched != [] && forall i :: 0 <= i < |sched| ==> sched[i].closed <= sched[i].accepted
    ensures target == NextTarget(LoadsOf(sched), capacity)
  {
    ghost var loads := LoadsOf(sched);
    target := 0;
    var cur := sched[0].accepted - sched[0].closed;
    if cur == 0 {
      return 0;
    }
    var i := 1;
    while i < |sched|
      invariant 1 <= i <= |sched| && 0 <= target < i && cur == loads[target] > 0
      invariant forall j :: 0 <= j < i ==> loads[target] <= loads[j]
      invariant forall j :: 0 <= j < target ==> loads[target] < loads[j]
    {
      var tmp := sched[i].accepted - sched[i].closed;
      assert tmp == loads[i];
      if tmp < cur {
        target, cur := i, tmp;
        if cur == 0 {
          break;
        }
      }
      i := i + 1;
    }
    assert target == FirstMin(loads);
    if cur >= AsSize(capacity) {
      return -1;
    }
  }

  /** A new connection: counted for the chosen worker when epoll takes it, refused with -1 when all
      workers are full. */
  method AddClient(sched: seq<SchedNode>, capacity: int, epoll: int) returns (r: int)
    requires sched != [] && forall i :: 0 <= i < |sched| ==> sched[i].closed <= sched[i].accepted
    modifies sched`accepted
    ensures var t := NextTarget(old(LoadsOf(sched)), capacity);
            && r == (if t == -1 then -1 else epoll)
            && forall x :: x in sched ==>
                 x.accepted == old(x.accepted) + if t != -1 && epoll == 0 && x == sched[t] then 1 else 0
  {
    var t := FindTarget(sched, capacity);
    if t == -1 {
      return -1;
    }
    r := epoll;
    if r == 0 {
      sched[t].accepted := sched[t].accepted + 1;
    }
  }
}
