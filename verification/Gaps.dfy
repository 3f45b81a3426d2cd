// Gaps in the answers of a session: when a step leaves or closes one, and the waiting requests that no
// run answers any more because of one.

module Gaps {
  import opened Bytes
  import opened Requests
  import opened Responses
  import opened ResponseRing
  import opened Router
  import opened Scanner
  import opened Gateway
  import opened Histories
  import opened Invariants
  import opened Steps
  import opened Accounting

  // --- What opens and closes a gap ---

  /** The session has answered exactly the numbers below the expected one, each once, in order. */
  predicate GapFree(g: Gateway, fd: int)
    requires fd in g.sessions
  {
    LogFor(g.log, fd) == Iota(g.sessions[fd].expected)
  }

  /** The request is answered by running its command on the spot. */
  predicate AnsweredAtOnce(g: Gateway, r: Request, env: Env) {
    !GoesAsync(g, r) && Process(g.table, r.cmd, r.payload, env.outcome).Replied?
  }

  lemma IotaSnoc(s: seq<int>, n: nat, k: nat)
    ensures s + [n] == Iota(k) <==> s == Iota(n) && k == n + 1
  {
    IotaNext(n);
    if s + [n] == Iota(k) {
      assert (s + [n])[|s|] == n && |s + [n]| == |s| + 1;
      assert s == (s + [n])[..|s|] == Iota(n);
    }
  }

  /** A frame that is not submitted is answered under its number; only a command that ran moves the
      expected number behind it. */
  lemma AnswerIsLogged(g: Gateway, fd: int, r: Request, env: Env)
    requires Live(g, fd) && !GoesAsync(g, r)
    ensures var s, h := g.sessions[fd], GoodFrame(g, fd, r, env);
            && fd in h.sessions
            && LogFor(h.log, fd) == LogFor(g.log, fd) + [s.next]
            && h.sessions[fd].expected == if AnsweredAtOnce(g, r, env) then Inc32(s.next) else s.expected
  {
    var s, h := g.sessions[fd], GoodFrame(g, fd, r, env);
    var a := h.log[|g.log|];
    assert h.log == g.log + [a] && a.fd == fd && a.seqNo == s.next;
    LogGrows(g.log, a, fd);
  }

  /** A valid frame leaves the answers of its session free of gaps if and only if it is submitted to the
      background thread and they were so before, or it is answered at once and every request before it has
      been answered, in order, which closes any gap there was. */
  lemma FrameGapFreeIff(g: Gateway, fd: int, r: Request, env: Env)
    requires Inv(g) && Live(g, fd) && g.sessions[fd].requests + 1 < U32_MOD
    ensures var h := GoodFrame(g, fd, r, env);
            && fd in h.sessions
            && (GapFree(h, fd) <==>
                  || (GoesAsync(g, r) && GapFree(g, fd))
                  || (AnsweredAtOnce(g, r, env) && LogFor(g.log, fd) == Iota(g.sessions[fd].next)))
  {
    var s, h := g.sessions[fd], GoodFrame(g, fd, r, env);
    assert OkSession(g, fd);
    NextIsRequests(s);
    if !GoesAsync(g, r) {
      AnswerIsLogged(g, fd, r, env);
      IotaSnoc(LogFor(g.log, fd), s.next, h.sessions[fd].expected);
    }
  }

  /** A refused frame start always leaves a gap. */
  lemma RefusalLeavesGap(g: Gateway, fd: int)
    requires Inv(g) && Live(g, fd) && (Unwrapped(g.sessions[fd]) || GapFree(g, fd))
    ensures !GapFree(BadFrame(g, fd), fd)
  {
    var s, h := g.sessions[fd], BadFrame(g, fd);
    LogGrows(g.log, Answer(fd, s.next, Refused, [CHECKSUM_REPLY]), fd);
    IotaSnoc(LogFor(g.log, fd), s.next, s.expected);
    assert GapFree(h, fd) <==> LogFor(g.log, fd) == Iota(s.next) && s.expected == s.next + 1;
    assert GapFree(g, fd) ==> |LogFor(g.log, fd)| == s.expected;
    if Unwrapped(s) {
      assert OkSession(g, fd);
      NextIsRequests(s);
    }
  }

  /** A release whose number is the expected one. */
  lemma ReleaseGapFreeIff(log: seq<Answer>, e: nat, a: Answer, fd: int)
    requires a.fd == fd ==> a.seqNo == e
    ensures LogFor(log + [a], fd) == Iota(if a.fd == fd then e + 1 else e) <==> LogFor(log, fd) == Iota(e)
  {
    LogGrows(log, a, fd);
    IotaSnoc(LogFor(log, fd), e, e + 1);
  }

  /** The flush neither leaves nor closes a gap, at any slot. */
  lemma FlushGapFreeIff(g: Gateway, fd: int, i: nat)
    requires Inv(g) && Live(g, fd) && Unwrapped(g.sessions[fd]) && i < |g.slots|
    ensures fd in FlushSlot(g, i).sessions && (GapFree(FlushSlot(g, i), fd) <==> GapFree(g, fd))
  {
    var t, e := g.slots[i], g.sessions[fd].expected;
    assert OkTask(g, i);
    if t.valid && t.completed && (!Live(g, t.fd) || t.seqNo == g.sessions[t.fd].expected) {
      if !Live(g, t.fd) {
        ReleaseGapFreeIff(g.log, e, Answer(t.fd, t.seqNo, Dropped, []), fd);
      } else if |g.sessions[t.fd].ring| == DEPTH - 1 {
        ReleaseGapFreeIff(g.log, e, Answer(t.fd, t.seqNo, Busy, [Failure(t.cmd, ERR_BUS_BUSY)]), fd);
        ExpectedAfter(g, i, fd);
      } else {
        ReleaseGapFreeIff(g.log, e, Answer(t.fd, t.seqNo, RingAsync, []), fd);
        ExpectedAfter(g, i, fd);
      }
    }
  }

  lemma ExpectedAfter(g: Gateway, i: nat, fd: int)
    requires Inv(g) && Live(g, fd) && Unwrapped(g.sessions[fd]) && i < |g.slots|
    requires var t := g.slots[i]; t.valid && t.completed && Live(g, t.fd) && t.seqNo == g.sessions[t.fd].expected
    ensures fd in FlushSlot(g, i).sessions
    ensures FlushSlot(g, i).sessions[fd].expected
         == g.sessions[fd].expected + if g.slots[i].fd == fd then 1 else 0
  {
    assert OkTask(g, i);
    SlotAdvances(g, i, fd);
  }

  lemma SlotAdvances(g: Gateway, i: nat, fd: int)
    requires Live(g, fd) && i < |g.slots|
    requires var t := g.slots[i]; t.valid && t.completed && Live(g, t.fd) && t.seqNo == g.sessions[t.fd].expected
    ensures fd in FlushSlot(g, i).sessions
    ensures FlushSlot(g, i).sessions[fd].expected
         == if g.slots[i].fd == fd then Inc32(g.sessions[fd].expected) else g.sessions[fd].expected
  {
  }

  // --- Stuck requests ---

  /** The expected number has passed k, or a number from the expected one up to k is held by no slot. */
  predicate Stuck(g: Gateway, fd: int, k: U32)
    requires fd in g.sessions
  {
    || k < g.sessions[fd].expected
    || exists n: U32 :: g.sessions[fd].expected <= n < k && !Held(g.slots, fd, n)
  }

  /** Slot i holds request k of a session, which is stuck: already passed, or behind n, held nowhere. */
  predicate Barred(g: Gateway, fd: int, i: nat, k: U32, n: U32) {
    && fd in g.sessions && i < |g.slots| && Holds(g.slots[i], fd, k) && k < g.sessions[fd].requests
    && (k < g.sessions[fd].expected || (g.sessions[fd].expected <= n < k && !Held(g.slots, fd, n)))
  }

  /** What keeps a request barred: its slot is left alone, n is not filed again, and the expected number
      stays, moves on from another number, or moves past k. */
  lemma BarredStays(g: Gateway, h: Gateway, fd: int, i: nat, k: U32, n: U32)
    requires Barred(g, fd, i, k, n) && fd in h.sessions && i < |h.slots| && Holds(h.slots[i], fd, k)
    requires g.sessions[fd].requests <= h.sessions[fd].requests
    requires n < k && Held(h.slots, fd, n) ==> Held(g.slots, fd, n)
    requires var d, e := g.sessions[fd].expected, h.sessions[fd].expected;
             e == d || k < e || (e == d + 1 && d != k && Held(g.slots, fd, d))
    ensures Barred(h, fd, i, k, n)
  {
  }

  lemma HeldAgain(a: seq<Task>, b: seq<Task>, fd: int, n: U32, j: nat)
    requires |a| == |b| && forall l :: 0 <= l < |b| && l != j && Holds(b[l], fd, n) ==> Holds(a[l], fd, n)
    requires j < |b| ==> !Holds(b[j], fd, n)
    ensures Held(b, fd, n) ==> Held(a, fd, n)
  {
    if Held(b, fd, n) {
      var l :| 0 <= l < |b| && Holds(b[l], fd, n);
      assert Holds(a[l], fd, n);
    }
  }

  // --- Frames ---

  lemma AnsweredEffect(g: Gateway, c: int, seqNo: U32, r: Request, env: Env, fd: int)
    requires c in g.sessions && fd in g.sessions
    ensures var h := Answered(g, c, seqNo, r, env);
            && h.slots == g.slots && fd in h.sessions && h.sessions[fd].asked == g.sessions[fd].asked
            && (h.sessions[fd].expected == g.sessions[fd].expected
                || (fd == c && h.sessions[fd].expected == Inc32(seqNo)))
  {
  }

  /** What a frame of connection c does to the slots and to the session of connection fd. */
  lemma FrameEffect(g: Gateway, c: int, r: Request, env: Env, h: Gateway, fd: int)
    requires fd in g.sessions && (h == GoodFrame(g, c, r, env) || h == BadFrame(g, c))
    ensures fd in h.sessions
    ensures var s, t, f := g.sessions[fd], h.sessions[fd], FirstFree(g.slots);
            && s.requests <= t.requests
            && (t.expected == s.expected || (t.expected == Inc32(s.next) && t.requests == s.requests + 1))
            && (h.slots == g.slots
                || (f < |g.slots| && h.slots == g.slots[f := h.slots[f]]
                    && c in g.sessions && h.slots[f].fd == c && h.slots[f].seqNo == g.sessions[c].next))
  {
    if Live(g, c) {
      AnsweredEffect(Issue(g, c, Some(r)), c, g.sessions[c].next, r, env, fd);
    }
  }

  lemma NextUnwrapped(g: Gateway, fd: int)
    requires Inv(g) && fd in g.sessions && Unwrapped(g.sessions[fd])
    ensures var s := g.sessions[fd];
            && s.next == s.requests && s.expected <= s.requests
            && (s.requests + 1 < U32_MOD ==> Inc32(s.next) == s.requests + 1)
  {
    assert OkSession(g, fd);
    NextIsRequests(g.sessions[fd]);
  }

  lemma FrameBarred(g: Gateway, c: int, r: Request, env: Env, h: Gateway, fd: int, i: nat, k: U32, n: U32)
    requires Inv(g) && Barred(g, fd, i, k, n) && (h == GoodFrame(g, c, r, env) || h == BadFrame(g, c))
    requires fd in h.sessions && Unwrapped(h.sessions[fd])
    ensures Barred(h, fd, i, k, n)
  {
    var s, f := g.sessions[fd], FirstFree(g.slots);
    FrameEffect(g, c, r, env, h, fd);
    NextUnwrapped(g, fd);
    if n < k {
      HeldAgain(g.slots, h.slots, fd, n, if h.slots == g.slots then |g.slots| else f);
    }
    BarredStays(g, h, fd, i, k, n);
  }

  // --- The background thread ---

  lemma BatchBarred(g: Gateway, run: Outcomes, fd: int, i: nat, k: U32, n: U32)
    requires Barred(g, fd, i, k, n)
    ensures Barred(Batch(g, run), fd, i, k, n)
  {
    var h := Batch(g, run);
    forall l | 0 <= l < |g.slots| ensures Holds(h.slots[l], fd, n) <==> Holds(g.slots[l], fd, n) {
      assert h.slots[l] == if Pending(g.slots[l]) then Finished(g.slots[l], run(l)) else g.slots[l];
    }
    HeldAgain(g.slots, h.slots, fd, n, |g.slots|);
    assert h.slots[i] == if Pending(g.slots[i]) then Finished(g.slots[i], run(i)) else g.slots[i];
    BarredStays(g, h, fd, i, k, n);
  }

  // --- A read ---

  lemma OneEventBarred(g: Gateway, c: int, b: seq<Byte>, e: Event, env: Env, h: Gateway, fd: int, i: nat, k: U32, n: U32)
    requires Inv(g) && Barred(g, fd, i, k, n) && EventIn(b, e) && h == OneEvent(g, c, b, e, env)
    requires fd in h.sessions && Unwrapped(h.sessions[fd])
    ensures Barred(h, fd, i, k, n)
  {
    var g0 := Meanwhile(g, env.batch);
    MeanwhileKept(g, env.batch);
    if env.batch.Some? {
      BatchBarred(g, env.batch.value, fd, i, k, n);
    }
    var r := if e.Dispatch? then Parsed(b[e.at..e.at + e.size]) else Request(0, []);
    FrameBarred(g0, c, r, env, h, fd, i, k, n);
  }

  /** A session whose numbers have not wrapped after a step had not wrapped before. */
  lemma UnwrappedBefore(g: Gateway, h: Gateway, fd: int)
    requires Kept(g, h) && fd in g.sessions
    ensures fd in h.sessions
    ensures Unwrapped(h.sessions[fd]) ==> Unwrapped(g.sessions[fd])
    ensures Live(h, fd) ==> Live(g, fd)
  {
    assert SessionKept(g, h, fd);
  }

  lemma {:induction false} EventsBarred(g: Gateway, c: int, b: seq<Byte>, es: seq<Event>, env: nat -> Env, h: Gateway,
                                        fd: int, i: nat, k: U32, n: U32)
    requires Inv(g) && Barred(g, fd, i, k, n) && AllIn(b, es) && h == Events(g, c, b, es, env)
    requires fd in h.sessions && Unwrapped(h.sessions[fd])
    ensures Barred(h, fd, i, k, n)
    decreases |es|
  {
    if es != [] {
      var m := |es| - 1;
      var p := Events(g, c, b, es[..m], env);
      EventsKept(g, c, b, es[..m], env);
      OneEventKept(p, c, b, es[m], env(m));
      UnwrappedBefore(g, p, fd);
      UnwrappedBefore(p, h, fd);
      EventsBarred(g, c, b, es[..m], env, p, fd, i, k, n);
      OneEventBarred(p, c, b, es[m], env(m), h, fd, i, k, n);
    }
  }

  /** A step that leaves the slots and the numbers of the session alone. */
  lemma QuietBarred(g: Gateway, h: Gateway, fd: int, i: nat, k: U32, n: U32)
    requires Barred(g, fd, i, k, n) && h.slots == g.slots && fd in h.sessions
    requires h.sessions[fd].asked == g.sessions[fd].asked && h.sessions[fd].expected == g.sessions[fd].expected
    ensures Barred(h, fd, i, k, n)
  {
  }

  lemma ScannedBarred(g: Gateway, c: int, b: seq<Byte>, env: nat -> Env, h: Gateway, fd: int, i: nat, k: U32, n: U32)
    requires Inv(g) && Barred(g, fd, i, k, n) && c in g.sessions && h == Scanned(g, c, b, env)
    requires fd in h.sessions && Unwrapped(h.sessions[fd])
    ensures Barred(h, fd, i, k, n)
  {
    ScanEventsIn(b, 0);
    var p := Events(g, c, b, Scan(b, 0).events, env);
    EventsKeepSessions(g, c, b, Scan(b, 0).events, env);
    EventsBarred(g, c, b, Scan(b, 0).events, env, p, fd, i, k, n);
    QuietBarred(p, h, fd, i, k, n);
  }

  lemma ReceiveBarred(g: Gateway, c: int, read: ReadOutcome, env: nat -> Env, h: Gateway, fd: int, i: nat, k: U32, n: U32)
    requires Inv(g) && Barred(g, fd, i, k, n)
    requires var w := ReadOpen(Opened(g, c), c, read, env);
             h == g || h == HangUp(g, c) || h == w || h == HangUp(w, c)
    requires fd in h.sessions && Unwrapped(h.sessions[fd])
    ensures Barred(h, fd, i, k, n)
  {
    var g0 := Opened(g, c);
    var w := ReadOpen(g0, c, read, env);
    OpenedKept(g, c);
    QuietBarred(g, g0, fd, i, k, n);
    if h == w || h == HangUp(w, c) {
      if read.Data? && read.bytes != [] && Room(g0.sessions[c].body) != 0 {
        ScannedBarred(g0, c, ReadIn(g0, c, read.bytes), env, w, fd, i, k, n);
      } else {
        QuietBarred(g0, w, fd, i, k, n);
      }
      QuietBarred(w, h, fd, i, k, n);
    } else {
      QuietBarred(g, h, fd, i, k, n);
    }
  }

  // --- The flush ---

  /** What the flush does at slot j to the slots and to a session. */
  lemma SlotFlushed(g: Gateway, j: nat, h: Gateway, fd: int)
    requires j < |g.slots| && h == FlushSlot(g, j) && Live(g, fd)
    ensures Live(h, fd) && (h.slots == g.slots || h.slots == g.slots[j := Freed(g.slots[j])])
    ensures h.sessions[fd].asked == g.sessions[fd].asked
    ensures var s, t := g.sessions[fd], h.sessions[fd];
            if Holds(g.slots[j], fd, s.expected) then t.expected == s.expected || t.expected == Inc32(s.expected)
            else t.expected == s.expected && (Holds(g.slots[j], fd, g.slots[j].seqNo) ==> h.slots == g.slots)
  {
  }

  lemma SlotBarred(g: Gateway, j: nat, h: Gateway, fd: int, i: nat, k: U32, n: U32)
    requires Inv(g) && Live(g, fd) && Unwrapped(g.sessions[fd]) && Barred(g, fd, i, k, n)
    requires j < |g.slots| && h == FlushSlot(g, j)
    ensures Live(h, fd) && Unwrapped(h.sessions[fd]) && Barred(h, fd, i, k, n)
  {
    var d := g.sessions[fd].expected;
    SlotFlushed(g, j, h, fd);
    assert OkTask(g, j);
    HeldAgain(g.slots, h.slots, fd, n, if h.slots == g.slots then |g.slots| else j);
    if Holds(g.slots[j], fd, d) {
      IncBelow(d);
    }
    BarredStays(g, h, fd, i, k, n);
  }

  lemma {:induction false} FlushBarred(g: Gateway, m: nat, h: Gateway, fd: int, i: nat, k: U32, n: U32)
    requires Inv(g) && Live(g, fd) && Unwrapped(g.sessions[fd]) && Barred(g, fd, i, k, n)
    requires m <= |g.slots| && h == FlushTo(g, m)
    ensures Live(h, fd) && Unwrapped(h.sessions[fd]) && Barred(h, fd, i, k, n)
    decreases m
  {
    if m > 0 {
      var p := FlushTo(g, m - 1);
      FlushBarred(g, m - 1, p, fd, i, k, n);
      FlushToKept(g, m - 1, p);
      SlotBarred(p, m - 1, h, fd, i, k, n);
    }
  }

  // --- Runs ---

  lemma EndBarred(g: Gateway, step: Step, h: Gateway, fd: int, i: nat, k: U32, n: U32)
    requires Barred(g, fd, i, k, n) && h == Apply(g, step) && (step.OnWritable? || step.OnHangup?)
    ensures Barred(h, fd, i, k, n)
  {
    QuietBarred(g, h, fd, i, k, n);
  }

  lemma StepBarred(g: Gateway, step: Step, h: Gateway, fd: int, i: nat, k: U32, n: U32)
    requires Inv(g) && Barred(g, fd, i, k, n) && h == Apply(g, step) && Live(h, fd) && Unwrapped(h.sessions[fd])
    ensures Barred(h, fd, i, k, n)
  {
    ApplyKept(g, step);
    UnwrappedBefore(g, h, fd);
    match step
    case OnReadable(c, registered, read, env) =>
      ReceiveIs(g, c, registered, read, env);
      ReceiveBarred(g, c, read, env, h, fd, i, k, n);
    case RunBatch(run) => BatchBarred(g, run, fd, i, k, n);
    case RunFlush => FlushBarred(g, |g.slots|, h, fd, i, k, n);
    case OnWritable(c, registered, kernel) => EndBarred(g, step, h, fd, i, k, n);
    case OnHangup(c) => EndBarred(g, step, h, fd, i, k, n);
  }

  /** The state after the first step of a run that the session lives through. */
  lemma LivesThrough(g: Gateway, fd: int, step: Step, later: seq<Step>, p: Gateway, h: Gateway)
    requires Inv(g) && fd in g.sessions && p == Apply(g, step) && h == Exec(p, later)
    requires Live(h, fd) && Unwrapped(h.sessions[fd])
    ensures Inv(p) && Live(p, fd) && Unwrapped(p.sessions[fd])
  {
    ApplyKept(g, step);
    ExecKept(p, later);
    UnwrappedBefore(g, p, fd);
    UnwrappedBefore(p, h, fd);
  }

  lemma {:induction false} RunBarred(g: Gateway, steps: seq<Step>, h: Gateway, fd: int, i: nat, k: U32, n: U32)
    requires Inv(g) && Barred(g, fd, i, k, n) && h == Exec(g, steps) && Live(h, fd) && Unwrapped(h.sessions[fd])
    ensures Barred(h, fd, i, k, n)
    decreases |steps|
  {
    if steps != [] {
      var p := Apply(g, steps[0]);
      LivesThrough(g, fd, steps[0], steps[1..], p, h);
      StepBarred(g, steps[0], p, fd, i, k, n);
      RunBarred(p, steps[1..], h, fd, i, k, n);
    }
  }

  /** A stuck request stays in its slot and unanswered, and stays stuck, over every run, the client's own
      further requests included, for as long as its session is open. */
  lemma StuckStays(g: Gateway, fd: int, i: nat, k: U32, steps: seq<Step>)
    requires Inv(g) && fd in g.sessions && i < |g.slots| && Holds(g.slots[i], fd, k) && Stuck(g, fd, k)
    ensures var h := Exec(g, steps);
            && fd in h.sessions && |h.slots| == |g.slots|
            && (Live(h, fd) && Unwrapped(h.sessions[fd]) ==>
                  Holds(h.slots[i], fd, k) && Stuck(h, fd, k) && Id(fd, k) !in LogIds(h.log))
  {
    var h := Exec(g, steps);
    ExecKept(g, steps);
    UnwrappedBefore(g, h, fd);
    if Live(h, fd) && Unwrapped(h.sessions[fd]) {
      assert OkTask(g, i);
      var n: U32 :| k < g.sessions[fd].expected || (g.sessions[fd].expected <= n < k && !Held(g.slots, fd, n));
      RunBarred(g, steps, h, fd, i, k, n);
      AnsweredIsNotHeld(h, fd, k);
    }
  }

  /** A waiting request is stuck if and only if the expected number has passed it, or a number from the
      expected one up to it was settled out of turn. */
  lemma StuckIff(g: Gateway, fd: int, k: U32)
    requires Inv(g) && fd in g.sessions && Unwrapped(g.sessions[fd]) && Held(g.slots, fd, k)
    ensures var e := g.sessions[fd].expected;
            Stuck(g, fd, k) <==> k < e || exists n: U32 :: e <= n < k && Id(fd, n) in LogIds(g.log)
  {
    EachRequestOnce(g, fd, k);
    HeldIff(g.slots, fd, k);
    forall n: U32 | n < k ensures Id(fd, n) in LogIds(g.log) <==> !Held(g.slots, fd, n) {
      AnsweredIsNotHeld(g, fd, n);
    }
  }

  /** So a refused frame start makes the blocking request that is filed right behind it stuck, from every
      state. */
  lemma RefusalBlocksNext(g: Gateway, fd: int, r: Request, env: Env)
    requires Inv(g) && Live(g, fd) && g.sessions[fd].requests + 2 < U32_MOD && GoesAsync(g, r)
    ensures var k, h := g.sessions[fd].next + 1, GoodFrame(BadFrame(g, fd), fd, r, env);
            k < U32_MOD && fd in h.sessions && Held(h.slots, fd, k) && Stuck(h, fd, k)
  {
    var n, p, h := g.sessions[fd].next, BadFrame(g, fd), GoodFrame(BadFrame(g, fd), fd, r, env);
    BadFrameKept(g, fd);
    NextUnwrapped(g, fd);
    EachRequestOnce(p, fd, n);
    HeldIff(g.slots, fd, n);
    var f := FirstFree(g.slots);
    assert Holds(h.slots[f], fd, n + 1);
    HeldAgain(g.slots, h.slots, fd, n, f);
  }

  // --- Overtaken tasks ---

  /** The task's turn has passed. */
  predicate Overtaken(g: Gateway, i: nat)
    requires i < |g.slots|
  {
    var t := g.slots[i];
    t.valid && t.fd in g.sessions && t.seqNo < g.sessions[t.fd].expected
  }

  /** A task whose number lies below the expected one stays in its slot for as long as its session
      is open: over every run it is neither answered nor released. */
  lemma OvertakenStaysForever(g: Gateway, i: nat, future: seq<Step>)
    requires Inv(g) && i < |g.slots| && Overtaken(g, i)
    ensures var h, t := Exec(g, future), g.slots[i];
            && t.fd in h.sessions && |h.slots| == |g.slots|
            && (Live(h, t.fd) && Unwrapped(h.sessions[t.fd]) ==>
                  Holds(h.slots[i], t.fd, t.seqNo) && Id(t.fd, t.seqNo) !in LogIds(h.log))
  {
    var t := g.slots[i];
    assert Stuck(g, t.fd, t.seqNo);
    StuckStays(g, t.fd, i, t.seqNo, future);
  }

  /** A synchronous reply overtakes exactly the tasks its session has outstanding. */
  lemma SyncReplyOvertakes(g: Gateway, fd: int, c: Call, send: SendOutcome, i: nat)
    requires Inv(g) && Live(g, fd) && g.sessions[fd].requests + 1 < U32_MOD
    requires i < |g.slots| && g.slots[i].fd == fd
    ensures i < |Synced(g, fd, c, send).slots|
    ensures Overtaken(Synced(g, fd, c, send), i) <==> g.slots[i].valid
  {
    assert OkSession(g, fd) && OkTask(g, i);
    NextIsRequests(g.sessions[fd]);
    SyncedIs(g, fd, c, send);
  }
}
