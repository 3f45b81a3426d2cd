// Counting requests: from bags of requests to statements about single sequence numbers.

module Accounting {
  import opened Bytes
  import opened Gateway
  import opened Histories
  import opened Invariants

  lemma {:induction false} IssuedCount(issued: seq<Id>, fd: int, n: U32)
    ensures multiset(issued)[Id(fd, n)] == multiset(IssuedFor(issued, fd))[n]
    decreases |issued|
  {
    if issued != [] {
      var k := |issued| - 1;
      IssuedCount(issued[..k], fd, n);
      assert issued == issued[..k] + [issued[k]];
    }
  }

  lemma {:induction false} LogCount(log: seq<Answer>, fd: int, n: U32)
    ensures LogIds(log)[Id(fd, n)] == multiset(LogFor(log, fd))[n]
    decreases |log|
  {
    if log != [] {
      LogCount(log[..|log| - 1], fd, n);
    }
  }

  lemma {:induction false} IotaCount(m: nat, n: int)
    ensures multiset(Iota(m))[n] == if 0 <= n < m then 1 else 0
  {
    if m > 0 {
      IotaNext(m - 1);
      IotaCount(m - 1, n);
    }
  }

  predicate Holds(t: Task, fd: int, n: U32) { t.valid && t.fd == fd && t.seqNo == n }

  predicate Held(slots: seq<Task>, fd: int, n: U32) {
    exists i :: 0 <= i < |slots| && Holds(slots[i], fd, n)
  }

  lemma HeldSnoc(slots: seq<Task>, fd: int, n: U32)
    requires slots != []
    ensures Held(slots, fd, n)
        <==> Held(slots[..|slots| - 1], fd, n) || Holds(slots[|slots| - 1], fd, n)
  {
    var init := slots[..|slots| - 1];
    assert forall i :: 0 <= i < |init| ==> init[i] == slots[i];
    if Held(init, fd, n) {
      var i :| 0 <= i < |init| && Holds(init[i], fd, n);
      assert Holds(slots[i], fd, n);
    }
    if Held(slots, fd, n) {
      var i :| 0 <= i < |slots| && Holds(slots[i], fd, n);
      assert i < |init| ==> Holds(init[i], fd, n);
    }
  }

  /** A request is outstanding exactly when some slot holds it. */
  lemma {:induction false} HeldIff(slots: seq<Task>, fd: int, n: U32)
    ensures Outstanding(slots)[Id(fd, n)] > 0 <==> Held(slots, fd, n)
    decreases |slots|
  {
    if slots != [] {
      HeldSnoc(slots, fd, n);
      HeldIff(slots[..|slots| - 1], fd, n);
    }
  }

  lemma {:induction false} HeldTwice(slots: seq<Task>, fd: int, n: U32, i: nat, j: nat)
    requires i < j < |slots| && Holds(slots[i], fd, n) && Holds(slots[j], fd, n)
    ensures Outstanding(slots)[Id(fd, n)] >= 2
    decreases |slots|
  {
    var k := |slots| - 1;
    if j < k {
      HeldTwice(slots[..k], fd, n, i, j);
    } else {
      assert Holds(slots[..k][i], fd, n);
      HeldIff(slots[..k], fd, n);
    }
  }

  /** Every sequence number a session has taken is answered once or outstanding once, and no other
      is either. */
  lemma EachRequestOnce(g: Gateway, fd: int, n: U32)
    requires Inv(g) && fd in g.sessions && Unwrapped(g.sessions[fd])
    ensures LogIds(g.log)[Id(fd, n)] + Outstanding(g.slots)[Id(fd, n)]
         == if n < g.sessions[fd].requests then 1 else 0
  {
    assert OkSession(g, fd);
    IssuedCount(g.issued, fd, n);
    IotaCount(g.sessions[fd].requests, n);
  }

  /** So no two slots hold the same request. */
  lemma HeldOnce(g: Gateway, fd: int, n: U32, i: nat, j: nat)
    requires Inv(g) && fd in g.sessions && Unwrapped(g.sessions[fd])
    requires i < |g.slots| && j < |g.slots| && Holds(g.slots[i], fd, n) && Holds(g.slots[j], fd, n)
    ensures i == j
  {
    EachRequestOnce(g, fd, n);
    if i < j {
      HeldTwice(g.slots, fd, n, i, j);
    } else if j < i {
      HeldTwice(g.slots, fd, n, j, i);
    }
  }

  /** Each answer or refusal takes its task out of the slots: an answered request is held nowhere. */
  lemma AnsweredIsNotHeld(g: Gateway, fd: int, n: U32)
    requires Inv(g) && fd in g.sessions && Unwrapped(g.sessions[fd]) && n < g.sessions[fd].requests
    ensures Id(fd, n) in LogIds(g.log) <==> !Held(g.slots, fd, n)
  {
    EachRequestOnce(g, fd, n);
    HeldIff(g.slots, fd, n);
  }

  /** A session whose answers all came out of the flush has answered exactly the numbers below the
      expected one, in order, and exactly the numbers from there on are still held. */
  lemma AsyncSessionIsGapless(g: Gateway, fd: int)
    requires Inv(g) && fd in g.sessions && Unwrapped(g.sessions[fd]) && OnlyAsync(g.log, fd)
    ensures LogFor(g.log, fd) == Iota(g.sessions[fd].expected)
    ensures forall n: U32 :: Held(g.slots, fd, n) <==> g.sessions[fd].expected <= n < g.sessions[fd].requests
  {
    assert OkSession(g, fd);
    forall n: U32 ensures Held(g.slots, fd, n) <==> g.sessions[fd].expected <= n < g.sessions[fd].requests
    {
      EachRequestOnce(g, fd, n);
      LogCount(g.log, fd, n);
      IotaCount(g.sessions[fd].expected, n);
      HeldIff(g.slots, fd, n);
    }
  }
}
