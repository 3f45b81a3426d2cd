// Which worker a new connection goes to, and the book-keeping of connections over every run of
// accepts, registrations and removals on any number of workers.

module Placement {
  const SIZE_MOD := 0x1_0000_0000_0000_0000

  /** The C conversion of the configured capacity, an int, to size_t. */
  function AsSize(capacity: int): int { if capacity < 0 then SIZE_MOD + capacity else capacity }

  /** The first index of a smallest load. */
  function FirstMin(loads: seq<nat>): (m: nat)
    requires loads != []
    ensures m < |loads| && forall j :: 0 <= j < |loads| ==> loads[m] <= loads[j]
    ensures forall j :: 0 <= j < m ==> loads[m] < loads[j]
  {
    var n := |loads| - 1;
    if n == 0 then 0
    else
      var m := FirstMin(loads[..n]);
      assert forall j :: 0 <= j < n ==> loads[..n][j] == loads[j];
      if loads[n] < loads[m] then n else m
  }

  /** The worker for the next connection; an idle first worker is taken without looking further. */
  function NextTarget(loads: seq<nat>, capacity: int): (t: int)
    requires loads != []
    ensures -1 <= t < |loads|
  {
    if loads[0] == 0 then 0
    else
      var m := FirstMin(loads);
      if loads[m] >= AsSize(capacity) then -1 else m
  }

  predicate AllFull(loads: seq<nat>, capacity: int) {
    forall j :: 0 <= j < |loads| ==> loads[j] >= AsSize(capacity)
  }

  /** The first of the least loaded workers is chosen, whatever shortcut is taken. */
  lemma TargetIsFirstMin(loads: seq<nat>, capacity: int)
    requires loads != []
    ensures NextTarget(loads, capacity) != -1 ==> NextTarget(loads, capacity) == FirstMin(loads)
  {
  }

  /** A refusal means that all workers are full, and the other way round, if and only if the capacity
      is not zero or the first worker has a connection. */
  lemma RefusesWhenFullIff(loads: seq<nat>, capacity: int)
    requires loads != [] && -0x8000_0000 <= capacity < 0x8000_0000
    ensures (NextTarget(loads, capacity) == -1 <==> AllFull(loads, capacity))
        <==> capacity != 0 || loads[0] > 0
  {
    var m := FirstMin(loads);
    assert AllFull(loads, capacity) <==> loads[m] >= AsSize(capacity);
  }

  /** A negative capacity refuses nobody: as a size_t it is larger than any load. */
  lemma NegativeNeverRefuses(loads: seq<nat>, capacity: int)
    requires loads != [] && -0x8000_0000 <= capacity < 0
    requires forall j :: 0 <= j < |loads| ==> loads[j] < 0x8000_0000_0000_0000
    ensures NextTarget(loads, capacity) != -1
  {
  }

  // --- Balance ---

  predicate Balanced(loads: seq<nat>) {
    forall i, j :: 0 <= i < |loads| && 0 <= j < |loads| ==> loads[i] <= loads[j] + 1
  }

  function AcceptOnce(loads: seq<nat>, capacity: int): (r: seq<nat>)
    requires loads != []
    ensures |r| == |loads|
  {
    var t := NextTarget(loads, capacity);
    if t == -1 then loads else loads[t := loads[t] + 1]
  }

  function AcceptMany(loads: seq<nat>, capacity: int, n: nat): (r: seq<nat>)
    requires loads != []
    ensures |r| == |loads|
  {
    if n == 0 then loads else AcceptOnce(AcceptMany(loads, capacity, n - 1), capacity)
  }

  /** Without closes, loads that differ by at most one keep doing so, however many are accepted. */
  lemma {:induction false} AcceptsStayBalanced(loads: seq<nat>, capacity: int, n: nat)
    requires loads != [] && Balanced(loads)
    ensures Balanced(AcceptMany(loads, capacity, n))
  {
    if n > 0 {
      AcceptsStayBalanced(loads, capacity, n - 1);
      var before := AcceptMany(loads, capacity, n - 1);
      TargetIsFirstMin(before, capacity);
    }
  }

  // --- Book-keeping ---

  /** One worker: its counters, the sockets of its busy slots in order, and its free slots. */
  datatype Load = Load(accepted: nat, closed: nat, busy: seq<int>, free: nat)

  function FirstAt(busy: seq<int>, fd: int): (i: nat)
    ensures i <= |busy| && (i < |busy| <==> fd in busy) && (i < |busy| ==> busy[i] == fd)
    ensures forall k :: 0 <= k < i ==> busy[k] != fd
  {
    if busy == [] || busy[0] == fd then 0 else 1 + FirstAt(busy[1..], fd)
  }

  /** A free slot becomes busy with fd. */
  function Registered(l: Load, fd: int): Load
    requires l.free > 0
  {
    l.(busy := l.busy + [fd], free := l.free - 1)
  }

  /** The first busy slot with fd becomes free, if there is one. */
  function Removed(l: Load, fd: int): Load {
    var i := FirstAt(l.busy, fd);
    if i == |l.busy| then l
    else l.(closed := l.closed + 1, busy := l.busy[..i] + l.busy[i + 1..], free := l.free + 1)
  }

  /** A registered socket is busy once more, and every other as often as before. */
  lemma RegisteredIsBusy(l: Load, fd: int)
    requires l.free > 0
    ensures var r := Registered(l, fd);
            && multiset(r.busy) == multiset(l.busy) + multiset{fd}
            && r.free == l.free - 1 && r.accepted == l.accepted && r.closed == l.closed
  {
  }

  lemma BusyWithout(busy: seq<int>, i: nat)
    requires i < |busy|
    ensures multiset(busy[..i] + busy[i + 1..]) == multiset(busy) - multiset{busy[i]}
  {
    assert busy == (busy[..i] + [busy[i]]) + busy[i + 1..];
    assert multiset(busy) == multiset(busy[..i]) + multiset{busy[i]} + multiset(busy[i + 1..]);
  }

  lemma NotBusy(busy: seq<int>, fd: int)
    requires fd !in busy
    ensures multiset(busy) - multiset{fd} == multiset(busy)
  {
    assert multiset(busy)[fd] == 0;
  }

  lemma RemovedAt(l: Load, fd: int, i: nat)
    requires i == FirstAt(l.busy, fd)
    ensures Removed(l, fd)
         == if i < |l.busy| then Load(l.accepted, l.closed + 1, l.busy[..i] + l.busy[i + 1..], l.free + 1) else l
  {
  }

  /** A removed socket is busy once less, if it was, and every other as often as before. */
  lemma RemovedIsFree(l: Load, fd: int)
    ensures var r := Removed(l, fd);
            && multiset(r.busy) == multiset(l.busy) - multiset{fd}
            && r.accepted == l.accepted
            && r.free - l.free == r.closed - l.closed == if fd in l.busy then 1 else 0
  {
    var i := FirstAt(l.busy, fd);
    RemovedAt(l, fd, i);
    if i < |l.busy| {
      BusyWithout(l.busy, i);
    } else {
      NotBusy(l.busy, fd);
    }
  }

  /** All workers, and for each the sockets handed to it that it has not registered yet. */
  datatype Server = Server(capacity: int, workers: seq<Load>, pending: seq<set<int>>)

  datatype Step =
    | Accept(fd: int, added: bool)   // a new connection; added tells whether epoll took it
    | Register(w: nat, fd: int)      // its first event in the worker
    | Remove(w: nat, fd: int)        // it is closed, registered or not

  function Loads(s: Server): (r: seq<nat>)
    ensures |r| == |s.workers|
    ensures forall i :: 0 <= i < |r| ==> r[i] == Active(s.workers[i])
  {
    seq(|s.workers|, i requires 0 <= i < |s.workers| => Active(s.workers[i]))
  }

  function Active(l: Load): nat { if l.closed <= l.accepted then l.accepted - l.closed else 0 }

  function Apply(s: Server, step: Step): Server
    requires s.workers != [] && |s.pending| == |s.workers|
  {
    match step
    case Accept(fd, added) =>
      var t := NextTarget(Loads(s), s.capacity);
      if t == -1 || !added then s
      else
        var l := s.workers[t];
        s.(workers := s.workers[t := l.(accepted := l.accepted + 1)], pending := s.pending[t := s.pending[t] + {fd}])
    case Register(w, fd) =>
      if w < |s.workers| && fd in s.pending[w] && fd !in s.workers[w].busy && s.workers[w].free > 0 then
        s.(workers := s.workers[w := Registered(s.workers[w], fd)], pending := s.pending[w := s.pending[w] - {fd}])
      else s
    case Remove(w, fd) =>
      if w < |s.workers| then
        s.(workers := s.workers[w := Removed(s.workers[w], fd)], pending := s.pending[w := s.pending[w] - {fd}])
      else s
  }

  /** Every slot is busy or free, and what is busy or about to be registered is accounted for among
      the accepted and not closed connections, which never exceed the capacity. */
  predicate Kept(s: Server, w: nat)
    requires w < |s.workers| == |s.pending|
  {
    var l := s.workers[w];
    && |l.busy| + l.free == s.capacity
    && |l.busy| + |s.pending[w]| <= l.accepted - l.closed <= s.capacity
  }

  ghost predicate Inv(s: Server) {
    && s.capacity > 0 && s.workers != [] && |s.pending| == |s.workers|
    && forall w {:trigger Kept(s, w)} :: 0 <= w < |s.workers| ==> Kept(s, w)
  }

  lemma AcceptKeeps(s: Server, fd: int, added: bool)
    requires Inv(s)
    ensures Inv(Apply(s, Accept(fd, added)))
  {
    var h, t := Apply(s, Accept(fd, added)), NextTarget(Loads(s), s.capacity);
    forall w | 0 <= w < |h.workers| ensures Kept(h, w) {
      assert Kept(s, w);
    }
  }

  /** An accept adds one connection to the loads, on the worker chosen for it, if epoll takes it; otherwise
      nothing is counted. */
  lemma AcceptAddsOne(s: Server, fd: int, added: bool)
    requires Inv(s)
    ensures var h := Apply(s, Accept(fd, added));
            Loads(h) == if added then AcceptOnce(Loads(s), s.capacity) else Loads(s)
  {
    var h, t := Apply(s, Accept(fd, added)), NextTarget(Loads(s), s.capacity);
    forall w | 0 <= w < |s.workers| ensures Loads(h)[w] == Loads(s)[w] + if added && w == t then 1 else 0 {
      assert Kept(s, w);
    }
  }

  lemma RegisterKeeps(s: Server, w: nat, fd: int)
    requires Inv(s)
    ensures Inv(Apply(s, Register(w, fd)))
  {
    var h := Apply(s, Register(w, fd));
    forall k | 0 <= k < |h.workers| ensures Kept(h, k) {
      assert Kept(s, k);
    }
  }

  lemma RemoveKeeps(s: Server, w: nat, fd: int)
    requires Inv(s)
    ensures Inv(Apply(s, Remove(w, fd)))
  {
    var h := Apply(s, Remove(w, fd));
    forall k | 0 <= k < |h.workers| ensures Kept(h, k) {
      assert Kept(s, k);
      assert |h.pending[k]| <= |s.pending[k]|;
    }
  }

  function Exec(s: Server, steps: seq<Step>): Server
    requires s.workers != [] && |s.pending| == |s.workers|
    decreases |steps|
  {
    if steps == [] then s else Exec(Apply(s, steps[0]), steps[1..])
  }

  /** Over every run. */
  lemma {:induction false} RunKeeps(s: Server, steps: seq<Step>)
    requires Inv(s)
    ensures Inv(Exec(s, steps))
    decreases |steps|
  {
    if steps != [] {
      match steps[0] {
        case Accept(fd, added) => AcceptKeeps(s, fd, added);
        case Register(w, fd) => RegisterKeeps(s, w, fd);
        case Remove(w, fd) => RemoveKeeps(s, w, fd);
      }
      RunKeeps(Apply(s, steps[0]), steps[1..]);
    }
  }

  function Initial(workers: nat, capacity: nat): Server {
    Server(capacity, seq(workers, _ => Load(0, 0, [], capacity)), seq(workers, _ => {}))
  }

  /** So a worker that registers a connection handed to it always finds a free slot, and a server that
      refuses a connection has every slot of every worker spoken for. */
  lemma PendingFindsFreeSlot(workers: nat, capacity: nat, steps: seq<Step>, w: nat, fd: int)
    requires 0 < workers && 0 < capacity < 0x8000_0000 && w < workers
    ensures var s := Exec(Initial(workers, capacity), steps);
            && |s.workers| == |s.pending| == workers
            && (fd in s.pending[w] ==> s.workers[w].free > 0)
            && (NextTarget(Loads(s), s.capacity) == -1 <==> forall k :: 0 <= k < workers ==> Active(s.workers[k]) == capacity)
  {
    var i := Initial(workers, capacity);
    forall k | 0 <= k < |i.workers| ensures Kept(i, k) {
    }
    RunKeeps(i, steps);
    RunShape(i, steps);
    var s := Exec(i, steps);
    assert Kept(s, w);
    if fd in s.pending[w] {
      assert |s.pending[w]| >= 1 by {
        assert s.pending[w] == (s.pending[w] - {fd}) + {fd};
      }
    }
    forall k | 0 <= k < workers ensures Active(s.workers[k]) <= capacity {
      assert Kept(s, k);
    }
    RefusesWhenFullIff(Loads(s), s.capacity);
  }

  // --- Which connections a worker serves ---

  predicate Serves(s: Server, w: nat, fd: int) { w < |s.workers| && fd in s.workers[w].busy }

  predicate Awaits(s: Server, w: nat, fd: int) {
    w < |s.workers| == |s.pending| && fd in s.pending[w] && fd !in s.workers[w].busy
  }

  predicate Without(steps: seq<Step>, step: Step) { forall i :: 0 <= i < |steps| ==> steps[i] != step }

  lemma BusyAfter(l: Load, k: int, fd: int)
    ensures l.free > 0 ==> (fd in Registered(l, k).busy <==> fd in l.busy || fd == k)
    ensures fd != k ==> (fd in Removed(l, k).busy <==> fd in l.busy)
  {
    if l.free > 0 {
      RegisteredIsBusy(l, k);
      assert fd in Registered(l, k).busy <==> fd in multiset(Registered(l, k).busy);
    }
    RemovedIsFree(l, k);
    assert fd in Removed(l, k).busy <==> fd in multiset(Removed(l, k).busy);
    assert fd in l.busy <==> fd in multiset(l.busy);
  }

  lemma ServesStep(s: Server, step: Step, w: nat, fd: int)
    requires s.workers != [] && |s.pending| == |s.workers| && Serves(s, w, fd) && step != Remove(w, fd)
    ensures Serves(Apply(s, step), w, fd)
  {
    if !step.Accept? {
      BusyAfter(s.workers[w], step.fd, fd);
    }
  }

  lemma {:induction false} ServesOn(s: Server, steps: seq<Step>, w: nat, fd: int)
    requires s.workers != [] && |s.pending| == |s.workers| && Serves(s, w, fd) && Without(steps, Remove(w, fd))
    ensures Serves(Exec(s, steps), w, fd)
    decreases |steps|
  {
    if steps != [] {
      assert steps[0] != Remove(w, fd);
      ServesStep(s, steps[0], w, fd);
      ServesOn(Apply(s, steps[0]), steps[1..], w, fd);
    }
  }

  lemma AwaitsStep(s: Server, step: Step, w: nat, fd: int)
    requires s.workers != [] && Awaits(s, w, fd) && step != Register(w, fd) && step != Remove(w, fd)
    ensures Awaits(Apply(s, step), w, fd)
  {
    if !step.Accept? {
      BusyAfter(s.workers[w], step.fd, fd);
    }
  }

  lemma {:induction false} AwaitsOn(s: Server, steps: seq<Step>, w: nat, fd: int)
    requires s.workers != [] && Awaits(s, w, fd) && Without(steps, Register(w, fd)) && Without(steps, Remove(w, fd))
    ensures Awaits(Exec(s, steps), w, fd)
    decreases |steps|
  {
    if steps != [] {
      assert steps[0] != Register(w, fd) && steps[0] != Remove(w, fd);
      AwaitsStep(s, steps[0], w, fd);
      AwaitsOn(Apply(s, steps[0]), steps[1..], w, fd);
    }
  }

  /** Over every run: a connection that is accepted is handed to the worker chosen for it, and once it is
      registered there that worker finds it until it is removed. */
  lemma AcceptedIsServed(s: Server, fd: int, before: seq<Step>, later: seq<Step>, w: nat)
    requires Inv(s) && NextTarget(Loads(s), s.capacity) == w && fd !in s.workers[w].busy
    requires Without(before, Register(w, fd)) && Without(before, Remove(w, fd)) && Without(later, Remove(w, fd))
    ensures var a := Apply(s, Accept(fd, true));
            a.workers != [] && |a.pending| == |a.workers|
            && var m := Exec(a, before);
            m.workers != [] && |m.pending| == |m.workers| && Awaits(m, w, fd)
            && var r := Apply(m, Register(w, fd));
            r.workers != [] && |r.pending| == |r.workers| && Serves(Exec(r, later), w, fd)
  {
    var a := Apply(s, Accept(fd, true));
    AcceptKeeps(s, fd, true);
    AwaitsOn(a, before, w, fd);
    RunKeeps(a, before);
    RunShape(a, before);
    var m := Exec(a, before);
    assert Kept(m, w);
    assert m.pending[w] == (m.pending[w] - {fd}) + {fd};
    BusyAfter(m.workers[w], fd, fd);
    ServesOn(Apply(m, Register(w, fd)), later, w, fd);
  }

  ghost predicate Once(busy: seq<int>) { forall fd :: multiset(busy)[fd] <= 1 }

  /** No worker registers a connection twice, so a removed one is not found any more. */
  lemma {:induction false} RunServesOnce(s: Server, steps: seq<Step>)
    requires s.workers != [] && |s.pending| == |s.workers|
    requires forall w :: 0 <= w < |s.workers| ==> Once(s.workers[w].busy)
    ensures var h := Exec(s, steps);
            && |h.workers| == |h.pending| == |s.workers|
            && (forall w :: 0 <= w < |h.workers| ==> Once(h.workers[w].busy))
            && forall w: nat, fd {:trigger Remove(w, fd)} :: !Serves(Apply(h, Remove(w, fd)), w, fd)
    decreases |steps|
  {
    if steps == [] {
      forall w: nat, fd ensures !Serves(Apply(s, Remove(w, fd)), w, fd) {
        if w < |s.workers| {
          RemovedIsFree(s.workers[w], fd);
          assert multiset(Removed(s.workers[w], fd).busy)[fd] == 0;
        }
      }
    } else {
      var step, h := steps[0], Apply(s, steps[0]);
      forall w | 0 <= w < |h.workers| ensures Once(h.workers[w].busy) {
        OnceStep(s, step, w);
      }
      RunServesOnce(h, steps[1..]);
    }
  }

  lemma OnceAfter(l: Load, fd: int)
    requires Once(l.busy)
    ensures l.free > 0 && fd !in l.busy ==> Once(Registered(l, fd).busy)
    ensures Once(Removed(l, fd).busy)
  {
    RemovedIsFree(l, fd);
    if l.free > 0 && fd !in l.busy {
      RegisteredIsBusy(l, fd);
      assert multiset(l.busy)[fd] == 0;
    }
  }

  lemma OnceStep(s: Server, step: Step, w: nat)
    requires s.workers != [] && |s.pending| == |s.workers| && w < |s.workers| && Once(s.workers[w].busy)
    ensures |Apply(s, step).workers| == |s.workers| && Once(Apply(s, step).workers[w].busy)
  {
    if !step.Accept? {
      OnceAfter(s.workers[w], step.fd);
    }
  }

  /** Capacity of a worker that is counted as used but belongs to no connection. */
  function Leaked(s: Server, w: nat): int
    requires w < |s.workers| == |s.pending|
  {
    var l := s.workers[w];
    l.accepted - l.closed - |l.busy| - |s.pending[w]|
  }

  /** A step never gives leaked capacity back, and leaks one more exactly when a connection is closed
      that was handed over and not registered yet. */
  lemma StepLeaks(s: Server, step: Step, w: nat)
    requires Inv(s) && w < |s.workers| && FreshAccept(s, step)
    ensures w < |Apply(s, step).workers| == |Apply(s, step).pending|
    ensures Leaked(Apply(s, step), w)
         == Leaked(s, w) + if step.Remove? && step.w == w && step.fd in s.pending[w] then 1 else 0
  {
    assert Kept(s, w);
    if step.Accept? {
      var t := NextTarget(Loads(s), s.capacity);
      assert t != -1 ==> |s.pending[t] + {step.fd}| == |s.pending[t]| + 1;
    } else if step.w < |s.workers| && step.fd in s.pending[step.w] {
      assert |s.pending[step.w] - {step.fd}| == |s.pending[step.w]| - 1;
    } else if step.w < |s.workers| {
      assert s.pending[step.w] - {step.fd} == s.pending[step.w];
    }
  }

  lemma AcceptedOnce(fd: int)
    ensures Apply(Initial(1, 1), Accept(fd, true)) == Server(1, [Load(1, 0, [], 1)], [{fd}])
  {
    var i := Initial(1, 1);
    assert Loads(i) == [0];
    assert i.pending[0] + {fd} == {fd};
    assert i.workers[0 := Load(1, 0, [], 1)] == [Load(1, 0, [], 1)] && i.pending[0 := {fd}] == [{fd}];
  }

  lemma RemovedUnregistered(fd: int)
    ensures Apply(Server(1, [Load(1, 0, [], 1)], [{fd}]), Remove(0, fd)) == Server(1, [Load(1, 0, [], 1)], [{}])
  {
    assert {fd} - {fd} == {};
    assert FirstAt([], fd) == 0;
  }

  /** A run that leaks: a connection is accepted and closed before it is registered. The only worker has
      no connection, and no connection is accepted any more. */
  lemma LeakIsReached(fd: int)
    ensures var s := Exec(Initial(1, 1), [Accept(fd, true), Remove(0, fd)]);
            && |s.workers| == |s.pending| == 1 && Leaked(s, 0) == 1
            && NextTarget(Loads(s), s.capacity) == -1 && s.workers[0].busy == []
  {
    var a, b := Accept(fd, true), Remove(0, fd);
    var s1, s2 := Server(1, [Load(1, 0, [], 1)], [{fd}]), Server(1, [Load(1, 0, [], 1)], [{}]);
    AcceptedOnce(fd);
    RemovedUnregistered(fd);
    assert [a, b][1..] == [b] && [b][1..] == [];
    assert Exec(s1, [b]) == Exec(s2, []) == s2;
    assert Loads(s2) == [1];
  }

  /** A newly accepted socket is not one that still waits for registration. */
  predicate FreshAccept(s: Server, step: Step) {
    step.Accept? ==> forall k :: 0 <= k < |s.pending| ==> step.fd !in s.pending[k]
  }

  lemma {:induction false} RunShape(s: Server, steps: seq<Step>)
    requires s.workers != [] && |s.pending| == |s.workers|
    ensures |Exec(s, steps).workers| == |s.workers| && |Exec(s, steps).pending| == |s.workers|
    ensures Exec(s, steps).capacity == s.capacity
    decreases |steps|
  {
    if steps != [] {
      RunShape(Apply(s, steps[0]), steps[1..]);
    }
  }
}
