// How far the background thread and the flush carry a session, on their own and among other steps.

module FlushProgress {
  import opened Bytes
  import opened Requests
  import opened ResponseRing
  import opened Router
  import opened Scanner
  import opened Gateway
  import opened Histories
  import opened Invariants
  import opened Steps
  import opened Accounting
  import opened Gaps

  predicate Due(t: Task, fd: int, n: int) { t.valid && t.completed && t.fd == fd && t.seqNo == n }

  predicate DueSomewhere(slots: seq<Task>, fd: int, n: int) {
    exists i :: 0 <= i < |slots| && Due(slots[i], fd, n)
  }

  /** A state to start from: the session is open and its numbers have not wrapped. */
  ghost predicate Ready(g: Gateway, fd: int) { Inv(g) && Live(g, fd) && Unwrapped(g.sessions[fd]) }

  function Expected(g: Gateway, fd: int): U32
    requires fd in g.sessions
  {
    g.sessions[fd].expected
  }

  predicate Others(t: Task, fd: int) { !(t.valid && t.fd == fd) }

  /** The pass at a slot whose task is due: it is released. */
  lemma DueIsReleased(g: Gateway, fd: int, i: nat)
    requires Ready(g, fd) && i < |g.slots| && Due(g.slots[i], fd, Expected(g, fd))
    ensures var h := FlushSlot(g, i);
            && Live(h, fd) && h.sessions[fd].requests == g.sessions[fd].requests
            && h.slots == g.slots[i := Freed(g.slots[i])] && Expected(h, fd) == Expected(g, fd) + 1
  {
    assert OkTask(g, i);
  }

  /** At any other slot nothing of this session changes. */
  lemma NotDueIsLeft(g: Gateway, fd: int, i: nat)
    requires Ready(g, fd) && i < |g.slots| && !Due(g.slots[i], fd, Expected(g, fd))
    ensures var h := FlushSlot(g, i);
            && fd in h.sessions && h.sessions[fd] == g.sessions[fd]
            && (h.slots == g.slots || (h.slots == g.slots[i := Freed(g.slots[i])] && Others(g.slots[i], fd)))
  {
  }

  /** What one slot of a pass does to the session: it releases the task whose turn it is, or nothing
      of this session. */
  lemma SlotEffect(g: Gateway, fd: int, i: nat)
    requires Ready(g, fd) && i < |g.slots|
    ensures var h := FlushSlot(g, i);
            && Ready(h, fd) && h.sessions[fd].requests == g.sessions[fd].requests
            && |h.slots| == |g.slots| && (forall j :: 0 <= j < |g.slots| && j != i ==> h.slots[j] == g.slots[j])
            && if Due(g.slots[i], fd, Expected(g, fd)) then
                 Expected(h, fd) == Expected(g, fd) + 1 && h.slots[i] == Freed(g.slots[i])
               else
                 Expected(h, fd) == Expected(g, fd)
                 && (h.slots[i] == g.slots[i] || (Others(g.slots[i], fd) && Others(h.slots[i], fd)))
  {
    FlushSlotKept(g, i);
    if Due(g.slots[i], fd, Expected(g, fd)) {
      DueIsReleased(g, fd, i);
    } else {
      NotDueIsLeft(g, fd, i);
    }
  }

  /** The slot j after the first n slots of a pass that started from g. */
  predicate SlotAfter(g: Gateway, h: Gateway, fd: int, n: nat, j: nat)
    requires fd in g.sessions && fd in h.sessions && j < |g.slots| == |h.slots|
  {
    var t, u := g.slots[j], h.slots[j];
    if j >= n then u == t
    else if Others(t, fd) then Others(u, fd)
    else if t.completed && Expected(g, fd) <= t.seqNo < Expected(h, fd) then u == Freed(t)
    else u == t
  }

  /** The pass so far: it released, for this session, exactly the numbers from the old expected one
      up to the new one, each from a slot among the first n. */
  ghost predicate PassedSoFar(g: Gateway, h: Gateway, fd: int, n: nat) {
    && Ready(h, fd) && fd in g.sessions && h.sessions[fd].requests == g.sessions[fd].requests
    && |h.slots| == |g.slots| && n <= |g.slots| && Expected(g, fd) <= Expected(h, fd)
    && (forall j {:trigger SlotAfter(g, h, fd, n, j)} :: 0 <= j < |g.slots| ==> SlotAfter(g, h, fd, n, j))
    && (forall k :: Expected(g, fd) <= k < Expected(h, fd) ==> DueSomewhere(g.slots[..n], fd, k))
  }

  lemma DueIn(slots: seq<Task>, fd: int, n: nat, k: int) returns (j: nat)
    requires n <= |slots| && DueSomewhere(slots[..n], fd, k)
    ensures j < n && Due(slots[j], fd, k)
  {
    j :| 0 <= j < n && Due(slots[..n][j], fd, k);
  }

  lemma DueExtends(slots: seq<Task>, fd: int, n: nat, k: int)
    requires n < |slots| && (DueSomewhere(slots[..n], fd, k) || Due(slots[n], fd, k))
    ensures DueSomewhere(slots[..n + 1], fd, k)
  {
    if DueSomewhere(slots[..n], fd, k) {
      var j := DueIn(slots, fd, n, k);
      assert Due(slots[..n + 1][j], fd, k);
    } else {
      assert Due(slots[..n + 1][n], fd, k);
    }
  }

  /** A slot of g that is due a number other slots were released for cannot exist. */
  lemma DueOnce(g: Gateway, fd: int, n: nat, i: nat, k: int)
    requires Ready(g, fd) && n <= i < |g.slots| && Due(g.slots[i], fd, k)
    ensures !DueSomewhere(g.slots[..n], fd, k)
  {
    if DueSomewhere(g.slots[..n], fd, k) {
      var j := DueIn(g.slots, fd, n, k);
      HeldOnce(g, fd, k, i, j);
    }
  }

  lemma PassDue(g: Gateway, h: Gateway, fd: int, n: nat, k: int)
    requires Ready(g, fd) && PassedSoFar(g, h, fd, n) && n < |g.slots|
    requires fd in FlushSlot(h, n).sessions && Expected(g, fd) <= k < Expected(FlushSlot(h, n), fd)
    ensures DueSomewhere(g.slots[..n + 1], fd, k)
  {
    SlotEffect(h, fd, n);
    assert SlotAfter(g, h, fd, n, n);
    DueExtends(g.slots, fd, n, k);
  }

  lemma PassSlot(g: Gateway, h: Gateway, fd: int, n: nat, h': Gateway)
    requires Ready(g, fd) && PassedSoFar(g, h, fd, n) && n < |g.slots| && h' == FlushSlot(h, n)
    ensures PassedSoFar(g, h', fd, n + 1)
  {
    var next := n + 1;
    SlotEffect(h, fd, n);
    forall j | 0 <= j < |g.slots| ensures SlotAfter(g, h', fd, next, j) {
      PassOneSlot(g, h, fd, n, j);
    }
    var first := g.slots[..next];
    forall k | Expected(g, fd) <= k < Expected(h', fd) ensures DueSomewhere(first, fd, k) {
      PassDue(g, h, fd, n, k);
    }
  }

  lemma PassOneSlot(g: Gateway, h: Gateway, fd: int, n: nat, j: nat)
    requires Ready(g, fd) && PassedSoFar(g, h, fd, n) && n < |g.slots| && j < |g.slots|
    ensures fd in FlushSlot(h, n).sessions && |FlushSlot(h, n).slots| == |g.slots|
    ensures SlotAfter(g, FlushSlot(h, n), fd, n + 1, j)
  {
    SlotEffect(h, fd, n);
    assert SlotAfter(g, h, fd, n, n) && SlotAfter(g, h, fd, n, j);
    var t := g.slots[j];
    if !Others(t, fd) && t.completed {
      if j == n && Expected(g, fd) <= t.seqNo < Expected(h, fd) {
        DueOnce(g, fd, n, n, t.seqNo);
      } else if j < n && t.seqNo == Expected(h, fd) && Due(g.slots[n], fd, t.seqNo) {
        HeldOnce(g, fd, t.seqNo, j, n);
      }
    }
  }

  lemma PassStarts(g: Gateway, fd: int)
    requires Ready(g, fd)
    ensures PassedSoFar(g, g, fd, 0)
  {
  }

  lemma {:induction false} Pass(g: Gateway, fd: int, n: nat)
    requires Ready(g, fd) && n <= |g.slots|
    ensures PassedSoFar(g, FlushTo(g, n), fd, n)
  {
    if n == 0 {
      PassStarts(g, fd);
    } else {
      Pass(g, fd, n - 1);
      PassSlot(g, FlushTo(g, n - 1), fd, n - 1, FlushTo(g, n));
    }
  }

  /** The expected number never drops within a pass. */
  lemma {:induction false} PassMonotone(g: Gateway, fd: int, m: nat, n: nat)
    requires Ready(g, fd) && m <= n <= |g.slots|
    ensures fd in FlushTo(g, m).sessions && fd in FlushTo(g, n).sessions
    ensures Expected(FlushTo(g, m), fd) <= Expected(FlushTo(g, n), fd)
  {
    if m < n {
      PassMonotone(g, fd, m, n - 1);
      PassStep(g, fd, n - 1, FlushTo(g, n - 1));
    } else {
      Pass(g, fd, m);
    }
  }

  lemma {:induction false} PassStep(g: Gateway, fd: int, n: nat, h: Gateway)
    requires Ready(g, fd) && n < |g.slots| && h == FlushTo(g, n)
    ensures fd in h.sessions && fd in FlushSlot(h, n).sessions
    ensures Expected(h, fd) <= Expected(FlushSlot(h, n), fd)
  {
    Pass(g, fd, n);
    SlotEffect(h, fd, n);
  }

  /** Behind the slot that is due the number reached so far, the expected number is higher. */
  lemma PassAdvances(g: Gateway, fd: int, i: nat, k: int)
    requires Ready(g, fd) && i < |g.slots| && Due(g.slots[i], fd, k)
    requires fd in FlushTo(g, i).sessions && k <= Expected(FlushTo(g, i), fd)
    ensures fd in FlushTo(g, i + 1).sessions && k < Expected(FlushTo(g, i + 1), fd)
  {
    Pass(g, fd, i);
    assert SlotAfter(g, FlushTo(g, i), fd, i, i);
    SlotEffect(FlushTo(g, i), fd, i);
  }

  /** When the next |at| numbers are due in slots of rising index, one pass releases them all. */
  lemma OnePassInSlotOrder(g: Gateway, fd: int, at: seq<nat>)
    requires Ready(g, fd)
    requires forall k :: 0 <= k < |at| ==> at[k] < |g.slots| && Due(g.slots[at[k]], fd, Expected(g, fd) + k)
    requires forall k, l :: 0 <= k < l < |at| ==> at[k] < at[l]
    ensures fd in Flush(g).sessions && Expected(Flush(g), fd) >= Expected(g, fd) + |at|
  {
    Pass(g, fd, |g.slots|);
    if at != [] {
      var k := |at| - 1;
      SlotOrderReaches(g, fd, at, k);
      PassMonotone(g, fd, at[k] + 1, |g.slots|);
    }
  }

  lemma {:induction false} SlotOrderReaches(g: Gateway, fd: int, at: seq<nat>, k: nat)
    requires Ready(g, fd) && k < |at|
    requires forall k :: 0 <= k < |at| ==> at[k] < |g.slots| && Due(g.slots[at[k]], fd, Expected(g, fd) + k)
    requires forall k, l :: 0 <= k < l < |at| ==> at[k] < at[l]
    ensures fd in FlushTo(g, at[k] + 1).sessions
    ensures Expected(FlushTo(g, at[k] + 1), fd) >= Expected(g, fd) + k + 1
    decreases k
  {
    if k == 0 {
      PassMonotone(g, fd, 0, at[0]);
    } else {
      SlotOrderReaches(g, fd, at, k - 1);
      PassMonotone(g, fd, at[k - 1] + 1, at[k]);
    }
    PassAdvances(g, fd, at[k], Expected(g, fd) + k);
  }

  // --- Repeated passes ---

  function Flushes(g: Gateway, n: nat): Gateway
    decreases n
  {
    if n == 0 then g else Flushes(Flush(g), n - 1)
  }

  /** The numbers from the expected one up to m are due, and m is not. */
  predicate DueUpTo(g: Gateway, fd: int, m: int)
    requires fd in g.sessions
  {
    && Expected(g, fd) <= m && !DueSomewhere(g.slots, fd, m)
    && forall k :: Expected(g, fd) <= k < m ==> DueSomewhere(g.slots, fd, k)
  }

  /** What is due after a pass: what was due before and not released. */
  lemma DueAfterPass(g: Gateway, fd: int, k: int)
    requires Ready(g, fd)
    ensures var h := Flush(g);
            fd in h.sessions && (DueSomewhere(h.slots, fd, k)
              <==> DueSomewhere(g.slots, fd, k) && !(Expected(g, fd) <= k < Expected(h, fd)))
  {
    var h := Flush(g);
    Pass(g, fd, |g.slots|);
    if DueSomewhere(g.slots, fd, k) && !(Expected(g, fd) <= k < Expected(h, fd)) {
      var i :| 0 <= i < |g.slots| && Due(g.slots[i], fd, k);
      assert SlotAfter(g, h, fd, |g.slots|, i);
      assert Due(h.slots[i], fd, k);
    }
    if DueSomewhere(h.slots, fd, k) {
      var i :| 0 <= i < |h.slots| && Due(h.slots[i], fd, k);
      assert SlotAfter(g, h, fd, |g.slots|, i);
      assert Due(g.slots[i], fd, k);
    }
  }

  /** A pass releases only what is due, and the next number if it is due. */
  lemma PassBounds(g: Gateway, fd: int)
    requires Ready(g, fd)
    ensures var h := Flush(g);
            && Ready(h, fd) && Expected(g, fd) <= Expected(h, fd)
            && (forall k :: Expected(g, fd) <= k < Expected(h, fd) ==> DueSomewhere(g.slots, fd, k))
            && (DueSomewhere(g.slots, fd, Expected(g, fd)) ==> Expected(g, fd) < Expected(h, fd))
  {
    var n, e := |g.slots|, Expected(g, fd);
    Pass(g, fd, n);
    assert g.slots[..n] == g.slots;
    if DueSomewhere(g.slots, fd, e) {
      var i :| 0 <= i < |g.slots| && Due(g.slots[i], fd, e);
      PassMonotone(g, fd, 0, i);
      PassAdvances(g, fd, i, e);
      PassMonotone(g, fd, i + 1, n);
    }
  }

  /** One pass stays below m and, unless it is there already, gets closer by at least one, also when
      the ring is full. */
  lemma OnePass(g: Gateway, fd: int, m: int)
    requires Ready(g, fd) && DueUpTo(g, fd, m)
    ensures var h := Flush(g);
            && Ready(h, fd) && DueUpTo(h, fd, m) && Expected(g, fd) <= Expected(h, fd)
            && (Expected(g, fd) < m ==> Expected(g, fd) < Expected(h, fd))
  {
    var h := Flush(g);
    PassBounds(g, fd);
    DueAfterPass(g, fd, m);
    forall k | Expected(h, fd) <= k < m ensures DueSomewhere(h.slots, fd, k) {
      DueAfterPass(g, fd, k);
    }
  }

  /** When the next numbers up to m are due and m is not, n passes release all of them if there are
      at most n, at least n of them otherwise, and never anything beyond. */
  lemma {:induction false} PassesReach(g: Gateway, fd: int, m: int, n: nat)
    requires Ready(g, fd) && DueUpTo(g, fd, m)
    ensures var h := Flushes(g, n);
            && Ready(h, fd) && DueUpTo(h, fd, m)
            && (n >= m - Expected(g, fd) ==> Expected(h, fd) == m)
            && (n < m - Expected(g, fd) ==> Expected(h, fd) >= Expected(g, fd) + n)
    decreases n
  {
    if n > 0 {
      OnePass(g, fd, m);
      PassesReach(Flush(g), fd, m, n - 1);
    }
  }

  // --- The background thread first ---

  /** After the background thread ran, due is the same as held. */
  lemma BatchMakesDue(g: Gateway, fd: int, run: Outcomes, k: U32)
    requires Ready(g, fd)
    ensures Ready(Batch(g, run), fd) && Expected(Batch(g, run), fd) == Expected(g, fd)
    ensures DueSomewhere(Batch(g, run).slots, fd, k) <==> Held(g.slots, fd, k)
  {
    BatchKept(g, run);
    var h := Batch(g, run);
    assert forall i :: 0 <= i < |g.slots| ==>
      h.slots[i] == if Pending(g.slots[i]) then Finished(g.slots[i], run(i)) else g.slots[i];
    if Held(g.slots, fd, k) {
      var i :| 0 <= i < |g.slots| && Holds(g.slots[i], fd, k);
      assert Due(h.slots[i], fd, k);
    }
    if DueSomewhere(h.slots, fd, k) {
      var i :| 0 <= i < |h.slots| && Due(h.slots[i], fd, k);
      assert Holds(g.slots[i], fd, k);
    }
  }

  predicate AllRan(slots: seq<Task>) { forall i :: 0 <= i < |slots| && slots[i].valid ==> slots[i].completed }

  lemma {:induction false} PassKeepsAllRan(g: Gateway, n: nat)
    requires AllRan(g.slots) && n <= |g.slots|
    ensures AllRan(FlushTo(g, n).slots)
  {
    if n > 0 {
      PassKeepsAllRan(g, n - 1);
    }
  }

  /** What is held once everything ran and n passes were made: what was held and not released. */
  lemma {:induction false} HeldAfterPasses(g: Gateway, fd: int, n: nat, k: U32)
    requires Ready(g, fd) && AllRan(g.slots)
    ensures var h := Flushes(g, n);
            && Ready(h, fd) && AllRan(h.slots) && Expected(g, fd) <= Expected(h, fd)
            && (Held(h.slots, fd, k) <==> Held(g.slots, fd, k) && !(Expected(g, fd) <= k < Expected(h, fd)))
    decreases n
  {
    if n > 0 {
      var h := Flush(g);
      PassKeepsAllRan(g, |g.slots|);
      PassBounds(g, fd);
      DueAfterPass(g, fd, k);
      HeldIsDue(g.slots, fd, k);
      HeldIsDue(h.slots, fd, k);
      HeldAfterPasses(h, fd, n - 1, k);
    }
  }

  lemma HeldIsDue(slots: seq<Task>, fd: int, k: U32)
    requires AllRan(slots)
    ensures Held(slots, fd, k) <==> DueSomewhere(slots, fd, k)
  {
    if Held(slots, fd, k) {
      var i :| 0 <= i < |slots| && Holds(slots[i], fd, k);
      assert Due(slots[i], fd, k);
    }
    if DueSomewhere(slots, fd, k) {
      var i :| 0 <= i < |slots| && Due(slots[i], fd, k);
      assert Holds(slots[i], fd, k);
    }
  }

  lemma BatchRunsAll(g: Gateway, run: Outcomes)
    ensures AllRan(Batch(g, run).slots)
  {
    assert forall i :: 0 <= i < |g.slots| ==>
      Batch(g, run).slots[i] == if Pending(g.slots[i]) then Finished(g.slots[i], run(i)) else g.slots[i];
  }

  /** The first number from k on that no slot holds. */
  function FirstGap(g: Gateway, fd: int, k: nat): (m: nat)
    requires fd in g.sessions && Unwrapped(g.sessions[fd])
    ensures k <= m && (m == k || m <= g.sessions[fd].requests)
    ensures forall j: U32 :: k <= j < m ==> Held(g.slots, fd, j)
    ensures m < g.sessions[fd].requests ==> !Held(g.slots, fd, m)
    decreases g.sessions[fd].requests - k
  {
    if k >= g.sessions[fd].requests || !Held(g.slots, fd, k) then k else FirstGap(g, fd, k + 1)
  }

  /** The first gap from the expected number on lies within the 32-bit numbers and waits nowhere. */
  lemma GapIsNotHeld(g: Gateway, fd: int)
    requires Ready(g, fd)
    ensures FirstGap(g, fd, Expected(g, fd)) < U32_MOD && !Held(g.slots, fd, FirstGap(g, fd, Expected(g, fd)))
  {
    assert OkSession(g, fd);
    var m := FirstGap(g, fd, Expected(g, fd));
    EachRequestOnce(g, fd, m);
    HeldIff(g.slots, fd, m);
  }

  lemma DueUpToGap(g: Gateway, fd: int, run: Outcomes, b: Gateway)
    requires Ready(g, fd) && b == Batch(g, run)
    ensures Ready(b, fd) && Expected(b, fd) == Expected(g, fd)
    ensures DueUpTo(b, fd, FirstGap(g, fd, Expected(g, fd)))
  {
    var m := FirstGap(g, fd, Expected(g, fd));
    GapIsNotHeld(g, fd);
    BatchMakesDue(g, fd, run, m);
    forall k | Expected(b, fd) <= k < m ensures DueSomewhere(b.slots, fd, k) {
      BatchMakesDue(g, fd, run, k);
    }
  }

  /** Left to the background thread and the flush, a session gets exactly to its first gap, after as
      many passes as there are requests before it, and no number of passes gets any further. */
  lemma StopsAtFirstGap(g: Gateway, fd: int, run: Outcomes, n: nat)
    requires Ready(g, fd) && n >= FirstGap(g, fd, Expected(g, fd)) - Expected(g, fd)
    ensures var h := Flushes(Batch(g, run), n);
            Ready(h, fd) && Expected(h, fd) == FirstGap(g, fd, Expected(g, fd))
  {
    DueUpToGap(g, fd, run, Batch(g, run));
    PassesReach(Batch(g, run), fd, FirstGap(g, fd, Expected(g, fd)), n);
  }

  lemma NotStuckIff(g: Gateway, fd: int, k: U32)
    requires fd in g.sessions && Held(g.slots, fd, k)
    ensures !Stuck(g, fd, k) <==>
              Expected(g, fd) <= k && forall j: U32 :: Expected(g, fd) <= j <= k ==> Held(g.slots, fd, j)
  {
  }

  /** A request that waits in a slot is answered that way if and only if it is not stuck: its number is
      not below the expected one, and every number between the two waits in a slot as well. */
  lemma AnsweredIffNoGapBefore(g: Gateway, fd: int, run: Outcomes, n: nat, k: U32)
    requires Ready(g, fd) && Held(g.slots, fd, k)
    requires n >= FirstGap(g, fd, Expected(g, fd)) - Expected(g, fd)
    ensures Id(fd, k) in LogIds(Flushes(Batch(g, run), n).log) <==> !Stuck(g, fd, k)
    ensures !Stuck(g, fd, k) <==>
              Expected(g, fd) <= k && forall j: U32 :: Expected(g, fd) <= j <= k ==> Held(g.slots, fd, j)
  {
    NotStuckIff(g, fd, k);
    var m, b, h := FirstGap(g, fd, Expected(g, fd)), Batch(g, run), Flushes(Batch(g, run), n);
    StopsAtFirstGap(g, fd, run, n);
    BatchMakesDue(g, fd, run, k);
    BatchRunsAll(g, run);
    HeldIsDue(b.slots, fd, k);
    HeldAfterPasses(b, fd, n, k);
    EachRequestOnce(g, fd, k);
    HeldIff(g.slots, fd, k);
    PassesKeepRequests(b, fd, n);
    AnsweredIsNotHeld(h, fd, k);
    assert OkSession(g, fd);
  }

  lemma {:induction false} PassesKeepRequests(g: Gateway, fd: int, n: nat)
    requires Ready(g, fd)
    ensures var h := Flushes(g, n); Ready(h, fd) && h.sessions[fd].requests == g.sessions[fd].requests
    decreases n
  {
    if n > 0 {
      Pass(g, fd, |g.slots|);
      PassesKeepRequests(Flush(g), fd, n - 1);
    }
  }

  // --- What a pass does with the tasks of sessions that are gone ---

  /** The flush at slot j leaves every other slot alone, takes nothing out of the log and neither opens nor
      closes a session. */
  lemma SlotAlone(g: Gateway, j: nat, h: Gateway)
    requires j < |g.slots| && h == FlushSlot(g, j)
    ensures |h.slots| == |g.slots| && forall k :: 0 <= k < |g.slots| && k != j ==> h.slots[k] == g.slots[k]
    ensures h.slots[j] == g.slots[j] || !h.slots[j].valid
    ensures g.log <= h.log && forall fd :: Live(h, fd) <==> Live(g, fd)
  {
  }

  predicate DroppedTask(g: Gateway, i: nat, h: Gateway)
    requires i < |g.slots| == |h.slots|
  {
    var t := g.slots[i];
    !h.slots[i].valid && Answer(t.fd, t.seqNo, Dropped, []) in h.log
  }

  lemma {:induction false} PassDrops(g: Gateway, n: nat, i: nat, h: Gateway)
    requires n <= |g.slots| && i < |g.slots| && h == FlushTo(g, n)
    requires g.slots[i].valid && g.slots[i].completed && !Live(g, g.slots[i].fd)
    ensures forall fd :: Live(h, fd) <==> Live(g, fd)
    ensures if i < n then DroppedTask(g, i, h) else h.slots[i] == g.slots[i]
    decreases n
  {
    if n > 0 {
      var p := FlushTo(g, n - 1);
      PassDrops(g, n - 1, i, p);
      SlotAlone(p, n - 1, h);
      if i == n - 1 {
        SlotDrops(p, i, h);
      }
    }
  }

  lemma SlotDrops(g: Gateway, i: nat, h: Gateway)
    requires i < |g.slots| && g.slots[i].valid && g.slots[i].completed && !Live(g, g.slots[i].fd) && h == FlushSlot(g, i)
    ensures |h.slots| == |g.slots| && DroppedTask(g, i, h)
  {
    var t := g.slots[i];
    assert h.log[|g.log|] == Answer(t.fd, t.seqNo, Dropped, []);
  }

  /** A pass frees the slot of every completed task whose session is gone, and settles its number. */
  lemma GoneTasksAreDropped(g: Gateway, i: nat)
    requires i < |g.slots| && g.slots[i].valid && g.slots[i].completed && !Live(g, g.slots[i].fd)
    ensures DroppedTask(g, i, Flush(g))
  {
    PassDrops(g, |g.slots|, i, Flush(g));
  }

  lemma {:induction false} PassLeaves(g: Gateway, n: nat, i: nat, h: Gateway)
    requires n <= |g.slots| && i < |g.slots| && h == FlushTo(g, n)
    ensures h.slots[i] == g.slots[i] || !h.slots[i].valid
    ensures forall fd :: Live(h, fd) <==> Live(g, fd)
    decreases n
  {
    if n > 0 {
      var p := FlushTo(g, n - 1);
      PassLeaves(g, n - 1, i, p);
      SlotAlone(p, n - 1, h);
    }
  }

  /** So once the background thread ran and a pass was made, from whatever state, no slot belongs to a
      session that has left the list. */
  lemma NoSlotOfTheGone(g: Gateway, run: Outcomes, i: nat)
    requires i < |g.slots|
    ensures var h := Flush(Batch(g, run)); h.slots[i].valid ==> Live(h, h.slots[i].fd)
  {
    var b, h := Batch(g, run), Flush(Batch(g, run));
    PassLeaves(b, |b.slots|, i, h);
    BatchRunsAll(g, run);
    if b.slots[i].valid && !Live(b, b.slots[i].fd) {
      GoneTasksAreDropped(b, i);
    }
  }

  // --- What a pass puts into the ring ---

  predicate SettledAs(log: seq<Answer>, fd: int, n: int, how: How) {
    exists i :: 0 <= i < |log| && log[i].fd == fd && log[i].seqNo == n && log[i].how == how
  }

  lemma SettledStaysAs(log: seq<Answer>, next: seq<Answer>, fd: int, n: int, how: How)
    requires SettledAs(log, fd, n, how) && log <= next
    ensures SettledAs(next, fd, n, how)
  {
    var i :| 0 <= i < |log| && log[i].fd == fd && log[i].seqNo == n && log[i].how == how;
    assert next[i] == log[i];
  }

  /** The numbers released from s to t: as many as the ring had room for were queued, in order, and the
      others were answered BUSY. */
  ghost predicate HandedOut(s: Session, t: Session, log: seq<Answer>, fd: int) {
    && s.expected <= t.expected && s.queued <= t.queued && |s.ring| <= 63
    && var m := |t.queued| - |s.queued|;
       && m == Min(t.expected - s.expected, 63 - |s.ring|) && |t.ring| == |s.ring| + m
       && (forall i :: |s.queued| <= i < |t.queued| ==> t.queued[i].seqNo == s.expected + (i - |s.queued|))
       && (forall n :: s.expected + m <= n < t.expected ==> SettledAs(log, fd, n, Busy))
  }

  /** One number is released: queued if there is room, and answered BUSY if not. */
  predicate HandedOne(s: Session, t: Session, log: seq<Answer>, fd: int) {
    && t.expected == s.expected + 1
    && if |s.ring| < 63 then
         |t.queued| == |s.queued| + 1 && s.queued <= t.queued && t.queued[|s.queued|].seqNo == s.expected
         && |t.ring| == |s.ring| + 1
       else t.queued == s.queued && t.ring == s.ring && SettledAs(log, fd, s.expected, Busy)
  }

  lemma HandedMore(s: Session, t: Session, log: seq<Answer>, fd: int, u: Session, next: seq<Answer>)
    requires HandedOut(s, t, log, fd) && log <= next && (u == t || HandedOne(t, u, next, fd))
    ensures HandedOut(s, u, next, fd)
  {
    var m := |u.queued| - |s.queued|;
    forall n | s.expected + m <= n < u.expected ensures SettledAs(next, fd, n, Busy) {
      if n < t.expected {
        SettledStaysAs(log, next, fd, n, Busy);
      }
    }
  }

  lemma SlotHands(g: Gateway, fd: int, i: nat, h: Gateway)
    requires Ready(g, fd) && i < |g.slots| && h == FlushSlot(g, i)
    ensures Ready(h, fd) && g.log <= h.log
    ensures var s, t := g.sessions[fd], h.sessions[fd];
            if Due(g.slots[i], fd, s.expected) then HandedOne(s, t, h.log, fd) else t == s
  {
    FlushSlotKept(g, i);
    if Due(g.slots[i], fd, Expected(g, fd)) {
      DueIsReleased(g, fd, i);
      assert h.log[|g.log|].fd == fd && h.log[|g.log|].seqNo == g.sessions[fd].expected;
    } else {
      NotDueIsLeft(g, fd, i);
    }
  }

  lemma {:induction false} PassHands(g: Gateway, fd: int, n: nat, h: Gateway)
    requires Ready(g, fd) && n <= |g.slots| && h == FlushTo(g, n)
    ensures Ready(h, fd) && HandedOut(g.sessions[fd], h.sessions[fd], h.log, fd)
    decreases n
  {
    if n > 0 {
      var p := FlushTo(g, n - 1);
      PassHands(g, fd, n - 1, p);
      SlotHands(p, fd, n - 1, h);
      HandedMore(g.sessions[fd], p.sessions[fd], p.log, fd, h.sessions[fd], h.log);
    }
  }

  /** A pass queues what it releases for a session, in order, as long as the ring has room, and answers
      BUSY for the rest only. */
  lemma FlushHandsOut(g: Gateway, fd: int)
    requires Ready(g, fd)
    ensures var h := Flush(g); Ready(h, fd) && HandedOut(g.sessions[fd], h.sessions[fd], h.log, fd)
  {
    PassHands(g, fd, |g.slots|, Flush(g));
  }

  // --- Any run ---

  /** The run answers the request while its session is open. */
  ghost predicate Answers(g: Gateway, fd: int, k: U32, steps: seq<Step>) {
    var h := Exec(g, steps);
    Live(h, fd) && Unwrapped(h.sessions[fd]) && Id(fd, k) in LogIds(h.log)
  }

  function Passes(n: nat): seq<Step> { seq(n, _ => RunFlush) }

  lemma {:induction false} PassesRun(g: Gateway, n: nat)
    ensures Exec(g, Passes(n)) == Flushes(g, n)
    decreases n
  {
    if n > 0 {
      assert Passes(n)[1..] == Passes(n - 1);
      PassesRun(Flush(g), n - 1);
    }
  }

  /** The background thread runs once, then n passes are made. */
  function Unaided(run: Outcomes, n: nat): seq<Step> { [RunBatch(run)] + Passes(n) }

  lemma UnaidedRun(g: Gateway, run: Outcomes, n: nat)
    ensures Exec(g, Unaided(run, n)) == Flushes(Batch(g, run), n)
  {
    assert Unaided(run, n)[1..] == Passes(n);
    PassesRun(Batch(g, run), n);
  }

  /** A waiting request can still be answered, on some run at all, if and only if it is not stuck: no
      run can make up for a gap, and when there is none the background thread and the flush are enough. */
  lemma AnswerableIff(g: Gateway, fd: int, k: U32)
    requires Ready(g, fd) && Held(g.slots, fd, k)
    ensures (exists steps :: Answers(g, fd, k, steps)) <==> !Stuck(g, fd, k)
  {
    if Stuck(g, fd, k) {
      var i :| 0 <= i < |g.slots| && Holds(g.slots[i], fd, k);
      forall steps ensures !Answers(g, fd, k, steps) {
        StuckStays(g, fd, i, k, steps);
      }
    } else {
      var run: Outcomes := _ => Outcome(0, []);
      var n := FirstGap(g, fd, Expected(g, fd)) - Expected(g, fd);
      AnsweredIffNoGapBefore(g, fd, run, n, k);
      StopsAtFirstGap(g, fd, run, n);
      UnaidedRun(g, run, n);
      assert Answers(g, fd, k, Unaided(run, n));
    }
  }

  // --- Passes among other steps ---

  /** A completed task is left where it is. */
  predicate SlotCalm(g: Gateway, h: Gateway, i: nat)
    requires i < |g.slots| == |h.slots|
  {
    g.slots[i].valid && g.slots[i].completed ==> h.slots[i] == g.slots[i]
  }

  /** What every step but the flush does to completed tasks: nothing. */
  ghost predicate Calm(g: Gateway, h: Gateway) {
    && |h.slots| == |g.slots|
    && forall i {:trigger SlotCalm(g, h, i)} :: 0 <= i < |g.slots| ==> SlotCalm(g, h, i)
  }

  lemma CalmTwice(g: Gateway, h: Gateway, k: Gateway)
    requires Calm(g, h) && Calm(h, k)
    ensures Calm(g, k)
  {
    forall i | 0 <= i < |g.slots| ensures SlotCalm(g, k, i) {
      assert SlotCalm(g, h, i) && SlotCalm(h, k, i);
    }
  }

  lemma BatchCalm(g: Gateway, run: Outcomes)
    ensures Calm(g, Batch(g, run))
  {
    forall i | 0 <= i < |g.slots| ensures SlotCalm(g, Batch(g, run), i) {
      assert Batch(g, run).slots[i] == if Pending(g.slots[i]) then Finished(g.slots[i], run(i)) else g.slots[i];
    }
  }

  lemma QuietCalm(g: Gateway, h: Gateway)
    requires h.slots == g.slots
    ensures Calm(g, h)
  {
    forall i | 0 <= i < |g.slots| ensures SlotCalm(g, h, i) {
    }
  }

  /** A frame leaves the slots alone or fills a free one. */
  lemma FrameCalm(g: Gateway, c: int, r: Request, env: Env, h: Gateway)
    requires h == GoodFrame(g, c, r, env) || h == BadFrame(g, c)
    ensures Calm(g, h)
  {
    var f := FirstFree(g.slots);
    if c in g.sessions {
      FrameEffect(g, c, r, env, h, c);
    }
    assert h.slots == g.slots || (f < |g.slots| && h.slots == g.slots[f := h.slots[f]]);
    forall i | 0 <= i < |g.slots| ensures SlotCalm(g, h, i) {
    }
  }

  lemma OneEventCalm(g: Gateway, c: int, b: seq<Byte>, e: Event, env: Env)
    requires EventIn(b, e)
    ensures Calm(g, OneEvent(g, c, b, e, env))
  {
    var g0, h := Meanwhile(g, env.batch), OneEvent(g, c, b, e, env);
    QuietCalm(g, g);
    if env.batch.Some? {
      BatchCalm(g, env.batch.value);
    }
    FrameCalm(g0, c, if e.Dispatch? then Parsed(b[e.at..e.at + e.size]) else Request(0, []), env, h);
    CalmTwice(g, g0, h);
  }

  lemma {:induction false} EventsCalm(g: Gateway, c: int, b: seq<Byte>, es: seq<Event>, env: nat -> Env)
    requires AllIn(b, es)
    ensures Calm(g, Events(g, c, b, es, env))
    decreases |es|
  {
    if es == [] {
      QuietCalm(g, g);
    } else {
      var n := |es| - 1;
      EventsCalm(g, c, b, es[..n], env);
      var h := Events(g, c, b, es[..n], env);
      OneEventCalm(h, c, b, es[n], env(n));
      CalmTwice(g, h, OneEvent(h, c, b, es[n], env(n)));
    }
  }

  lemma ReadOpenCalm(g: Gateway, c: int, read: ReadOutcome, env: nat -> Env, h: Gateway)
    requires c in g.sessions && h == ReadOpen(g, c, read, env)
    ensures Calm(g, h)
  {
    if read.Data? && read.bytes != [] && Room(g.sessions[c].body) != 0 {
      var b := ReadIn(g, c, read.bytes);
      ScanEventsIn(b, 0);
      EventsCalm(g, c, b, Scan(b, 0).events, env);
      EventsKeepSessions(g, c, b, Scan(b, 0).events, env);
      var p := Events(g, c, b, Scan(b, 0).events, env);
      QuietCalm(p, h);
      CalmTwice(g, p, h);
    } else {
      QuietCalm(g, h);
    }
  }

  lemma ReceiveCalm(g: Gateway, c: int, read: ReadOutcome, env: nat -> Env, h: Gateway)
    requires var w := ReadOpen(Opened(g, c), c, read, env);
             h == g || h == HangUp(g, c) || h == w || h == HangUp(w, c)
    ensures Calm(g, h)
  {
    var g0 := Opened(g, c);
    var w := ReadOpen(g0, c, read, env);
    ReadOpenCalm(g0, c, read, env, w);
    QuietCalm(g, g0);
    CalmTwice(g, g0, w);
    QuietCalm(w, HangUp(w, c));
    CalmTwice(g, w, HangUp(w, c));
    if h.slots == g.slots {
      QuietCalm(g, h);
    }
  }

  lemma OtherCalm(g: Gateway, step: Step)
    requires !step.RunFlush?
    ensures Calm(g, Apply(g, step))
  {
    match step
    case OnReadable(c, registered, read, env) =>
      ReceiveIs(g, c, registered, read, env);
      ReceiveCalm(g, c, read, env, Apply(g, step));
    case RunBatch(run) => BatchCalm(g, run);
    case OnWritable(c, registered, kernel) => QuietCalm(g, Apply(g, step));
    case OnHangup(c) => QuietCalm(g, Apply(g, step));
  }

  function FlushOf(step: Step): nat { if step.RunFlush? then 1 else 0 }

  function FlushCount(steps: seq<Step>): nat {
    if steps == [] then 0 else FlushOf(steps[0]) + FlushCount(steps[1..])
  }

  /** All numbers from the expected one up to m are due; none are when m is not above it. */
  predicate DueBelow(g: Gateway, fd: int, m: int)
    requires fd in g.sessions
  {
    forall k :: Expected(g, fd) <= k < m ==> DueSomewhere(g.slots, fd, k)
  }

  lemma DueStays(g: Gateway, h: Gateway, fd: int, k: int)
    requires Calm(g, h) && DueSomewhere(g.slots, fd, k)
    ensures DueSomewhere(h.slots, fd, k)
  {
    var i :| 0 <= i < |g.slots| && Due(g.slots[i], fd, k);
    assert SlotCalm(g, h, i);
    assert Due(h.slots[i], fd, k);
  }

  lemma FlushReaches(g: Gateway, fd: int, m: nat, h: Gateway)
    requires Ready(g, fd) && DueBelow(g, fd, m) && h == Flush(g)
    ensures Ready(h, fd) && DueBelow(h, fd, m) && Expected(h, fd) >= Min(m, Expected(g, fd) + 1)
  {
    PassBounds(g, fd);
    forall k | Expected(h, fd) <= k < m ensures DueSomewhere(h.slots, fd, k) {
      DueAfterPass(g, fd, k);
    }
  }

  /** One step that the session lives through; a read may bring further requests of the client. */
  lemma StepReaches(g: Gateway, fd: int, step: Step, m: nat, h: Gateway)
    requires Ready(g, fd) && DueBelow(g, fd, m) && h == Apply(g, step) && Live(h, fd) && Unwrapped(h.sessions[fd])
    ensures Ready(h, fd) && DueBelow(h, fd, m)
    ensures Expected(h, fd) >= Min(m, Expected(g, fd) + FlushOf(step))
  {
    ApplyKept(g, step);
    if step.RunFlush? {
      FlushReaches(g, fd, m, h);
    } else {
      assert SessionKept(g, h, fd);
      OtherCalm(g, step);
      forall k | Expected(h, fd) <= k < m ensures DueSomewhere(h.slots, fd, k) {
        DueStays(g, h, fd, k);
      }
    }
  }

  /** From g to h the expected number moved by at least n, or up to m. */
  predicate Reached(g: Gateway, h: Gateway, fd: int, m: nat, n: nat) {
    fd in g.sessions && fd in h.sessions && Expected(h, fd) >= Min(m, Expected(g, fd) + n)
  }

  lemma ReachedTwice(g: Gateway, p: Gateway, h: Gateway, fd: int, m: nat, a: nat, b: nat, n: nat)
    requires Reached(g, p, fd, m, a) && Reached(p, h, fd, m, b) && n == a + b
    ensures Reached(g, h, fd, m, n)
  {
  }

  lemma FirstReaches(g: Gateway, fd: int, step: Step, later: seq<Step>, m: nat, p: Gateway, h: Gateway)
    requires Ready(g, fd) && DueBelow(g, fd, m) && p == Apply(g, step) && h == Exec(p, later)
    requires Live(h, fd) && Unwrapped(h.sessions[fd])
    ensures Ready(p, fd) && DueBelow(p, fd, m) && Reached(g, p, fd, m, FlushOf(step))
  {
    LivesThrough(g, fd, step, later, p, h);
    StepReaches(g, fd, step, m, p);
  }

  /** When the next numbers up to m are due, n flushes move the expected number by at least n or up to
      m, over every run with n flushes in it that the session lives through, whatever else is on it: the
      client's own further requests, other connections, the background thread. */
  lemma {:induction false} RunReaches(g: Gateway, fd: int, steps: seq<Step>, m: nat, h: Gateway)
    requires Ready(g, fd) && DueBelow(g, fd, m) && h == Exec(g, steps) && Live(h, fd) && Unwrapped(h.sessions[fd])
    ensures Reached(g, h, fd, m, FlushCount(steps))
    decreases |steps|
  {
    if steps != [] {
      var step, later, p := steps[0], steps[1..], Apply(g, steps[0]);
      FirstReaches(g, fd, step, later, m, p, h);
      RunReaches(p, fd, later, m, h);
      ReachedTwice(g, p, h, fd, m, FlushOf(step), FlushCount(later), FlushCount(steps));
    }
  }
}
