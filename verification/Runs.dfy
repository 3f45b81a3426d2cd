// What holds over every run of the gateway, and where the ordering promised to clients stops.

module Runs {
  import opened Bytes
  import opened Requests
  import opened Responses
  import opened ResponseRing
  import opened Router
  import opened Gateway
  import opened Histories
  import opened Invariants
  import opened Steps
  import opened Accounting
  import opened Gaps

  /** Every reachable state satisfies the invariant. */
  lemma ReachableInv(table: seq<Entry>, maxRequest: int, steps: seq<Step>)
    ensures Inv(Exec(Start(table, maxRequest), steps)) && |Exec(Start(table, maxRequest), steps).slots| == 512
  {
    StartInv(table, maxRequest);
    ExecKept(Start(table, maxRequest), steps);
  }

  /** In every reachable state, for every session that has not used up its 32-bit numbers: the
      expected number never runs ahead of the next request, the responses put into the ring carry
      strictly increasing numbers below the expected one, and no later step turns either back. */
  lemma ResponsesStayInOrder(table: seq<Entry>, maxRequest: int, past: seq<Step>, future: seq<Step>, fd: int)
    requires var g, h := Exec(Start(table, maxRequest), past), Exec(Exec(Start(table, maxRequest), past), future);
             fd in g.sessions && fd in h.sessions && Unwrapped(h.sessions[fd])
    ensures var g, h := Exec(Start(table, maxRequest), past), Exec(Exec(Start(table, maxRequest), past), future);
            InOrderSince(g.sessions[fd], h.sessions[fd], h.log, fd)
  {
    var g := Exec(Start(table, maxRequest), past);
    ReachableInv(table, maxRequest, past);
    ExecKept(g, future);
    KeptInOrder(g, Exec(g, future), fd);
  }

  predicate InOrderSince(s: Session, t: Session, log: seq<Answer>, fd: int) {
    && s.expected <= t.expected <= t.next == t.requests
    && s.queued <= t.queued && Increasing(t.queued, t.expected)
    && RingFor(log, fd) == QueuedSeqs(t.queued)
  }

  lemma KeptInOrder(g: Gateway, h: Gateway, fd: int)
    requires Kept(g, h) && fd in g.sessions && fd in h.sessions && Unwrapped(h.sessions[fd])
    ensures InOrderSince(g.sessions[fd], h.sessions[fd], h.log, fd)
  {
    assert OkSession(h, fd) && SessionKept(g, h, fd);
    InOrderNow(g.sessions[fd], h.sessions[fd], h.issued, h.log, fd);
  }

  lemma InOrderNow(s: Session, t: Session, issued: seq<Id>, log: seq<Answer>, fd: int)
    requires SessionGrows(s, t) && Counting(t) && HistoryKept(t, issued, log, fd) && Unwrapped(t)
    ensures InOrderSince(s, t, log, fd)
  {
    NextIsRequests(t);
  }

  /** End to end: whatever the kernel took on any run, a client that decodes the bytes gets the first
      k responses queued on the session, in order, and at most a strict part of the next frame. */
  lemma ClientReceivesPrefix(table: seq<Entry>, maxRequest: int, steps: seq<Step>, fd: int) returns (k: nat)
    requires fd in Exec(Start(table, maxRequest), steps).sessions
    ensures var s := Exec(Start(table, maxRequest), steps).sessions[fd];
            HoldsFirst(DecodeStream(s.accepted), s.accepted, Replies(s.queued), k)
  {
    var g := Exec(Start(table, maxRequest), steps);
    ReachableInv(table, maxRequest, steps);
    assert OkSession(g, fd);
    var s := g.sessions[fd];
    var n := |s.accepted|;
    assert s.accepted[..n] == s.accepted;
    k := PrefixDecodes(Replies(s.queued), n);
  }

  /** The responses are those with these numbers: the numbers are the first ones queued on the session
      and rise, the handler was called for each with the request it was taken for, and the response is
      what came out of that call. */
  predicate Answering(rs: seq<Response>, g: Gateway, fd: int, at: seq<int>)
    requires fd in g.sessions
  {
    var s := g.sessions[fd];
    && |at| == |rs| <= |s.queued| && at == QueuedSeqs(s.queued)[..|at|]
    && (forall i, j :: 0 <= i < j < |at| ==> at[i] < at[j])
    && (forall i :: 0 <= i < |at| ==> AnswersNumber(rs[i], g, fd, at[i]))
  }

  predicate AnswersNumber(r: Response, g: Gateway, fd: int, n: int)
    requires fd in g.sessions
  {
    && 0 <= n < U32_MOD && Id(fd, n) in g.ran
    && var c := g.ran[Id(fd, n)];
       Asks(g.sessions[fd], n, c.request) && Tells(r, c.request.cmd, c.outcome)
  }

  lemma QueuedAnswers(g: Gateway, fd: int, i: nat)
    requires Inv(g) && fd in g.sessions && Unwrapped(g.sessions[fd]) && i < |g.sessions[fd].queued|
    ensures var q := g.sessions[fd].queued[i]; AnswersNumber(q.reply, g, fd, q.seqNo)
  {
    var q := g.sessions[fd].queued[i];
    assert OkSession(g, fd);
    assert Echoes(g.ran, fd, q);
    assert OkCall(g, Id(fd, q.seqNo));
    var c := g.ran[Id(fd, q.seqNo)];
    OutcomeIsTold(c.request.cmd, c.outcome);
  }

  lemma FirstAnswers(g: Gateway, fd: int, k: nat)
    requires Inv(g) && fd in g.sessions && Unwrapped(g.sessions[fd]) && k <= |g.sessions[fd].queued|
    ensures Answering(Replies(g.sessions[fd].queued)[..k], g, fd, QueuedSeqs(g.sessions[fd].queued)[..k])
  {
    var s := g.sessions[fd];
    var at := QueuedSeqs(s.queued)[..k];
    forall i | 0 <= i < k ensures AnswersNumber(Replies(s.queued)[..k][i], g, fd, at[i]) {
      QueuedAnswers(g, fd, i);
    }
    assert OkSession(g, fd);
    assert Increasing(s.queued, s.expected);
  }

  /** What a client decodes on any run are the outcomes of calls made for its own requests, each with
      that request's command and parameters, in the order in which the requests were taken, at most one
      for each. */
  lemma ClientGetsAnswersInOrder(table: seq<Entry>, maxRequest: int, steps: seq<Step>, fd: int) returns (at: seq<int>)
    requires fd in Exec(Start(table, maxRequest), steps).sessions
    requires Unwrapped(Exec(Start(table, maxRequest), steps).sessions[fd])
    ensures var g := Exec(Start(table, maxRequest), steps);
            Answering(DecodeStream(g.sessions[fd].accepted).responses, g, fd, at)
  {
    var g := Exec(Start(table, maxRequest), steps);
    ReachableInv(table, maxRequest, steps);
    var k := ClientReceivesPrefix(table, maxRequest, steps, fd);
    FirstAnswers(g, fd, k);
    at := QueuedSeqs(g.sessions[fd].queued)[..k];
  }

  predicate Known(table: seq<Entry>, cmd: Byte) { exists i :: 0 <= i < |table| && table[i].cmd == cmd }

  /** The one call made for a number was made with its request, and the frame says what came out. */
  predicate Reports(frame: Reply, s: Session, ran: map<Id, Call>, id: Id) {
    id in ran && Asks(s, id.seqNo, ran[id].request) && Tells(frame, ran[id].request.cmd, ran[id].outcome)
  }

  /** What belongs to a number, by how it was settled. */
  predicate Owed(table: seq<Entry>, s: Session, ran: map<Id, Call>, a: Answer)
    requires a.seqNo < |s.asked|
  {
    var id, what := Id(a.fd, a.seqNo), s.asked[a.seqNo];
    match a.how
    case Refused =>
      if what.None? then a.direct == [Failure(0x00, 0x01)]
      else
        var r := what.value;
        !Accepts(table, r.cmd, r.payload) && a.direct == [Failure(r.cmd, if Known(table, r.cmd) then 0xFF else 0x03)]
    case Failed =>
      && what.Some? && Accepts(table, what.value.cmd, what.value.payload)
      && |a.direct| == 2 && Reports(a.direct[0], s, ran, id) && a.direct[1] == Failure(what.value.cmd, 0xFF)
    case Busy => what.Some? && Blocks(table, what.value.cmd) && id in ran && a.direct == [Failure(what.value.cmd, 0x12)]
    case RingAsync => what.Some? && Blocks(table, what.value.cmd) && id in ran && a.direct == []
    case Dropped => what.Some? && Blocks(table, what.value.cmd) && !s.open && a.direct == []
    case _ =>
      && what.Some? && Accepts(table, what.value.cmd, what.value.payload)
      && |a.direct| == 1 && Reports(a.direct[0], s, ran, id)
  }

  lemma SettledIsOwed(g: Gateway, i: nat)
    requires Inv(g) && i < |g.log| && g.log[i].fd in g.sessions && Unwrapped(g.sessions[g.log[i].fd])
    ensures var a := g.log[i];
            a.seqNo < |g.sessions[a.fd].asked| && Owed(g.table, g.sessions[a.fd], g.ran, a)
  {
    var a := g.log[i];
    var id := Id(a.fd, a.seqNo);
    assert OkAnswer(g, i);
    if id in g.ran {
      assert OkCall(g, id);
      OutcomeIsTold(g.ran[id].request.cmd, g.ran[id].outcome);
    }
  }

  /** Every settled number was settled with what belongs to it: the frames handed to the socket past the
      ring report the one call made for it, which was made because its first table entry takes that many
      parameters, or are the error frame for a request for which none was made. */
  lemma SettledAsOwed(table: seq<Entry>, maxRequest: int, steps: seq<Step>, i: nat)
    requires i < |Exec(Start(table, maxRequest), steps).log|
    ensures var g := Exec(Start(table, maxRequest), steps);
            var a := g.log[i];
            && g.table == table && a.fd in g.sessions
            && (Unwrapped(g.sessions[a.fd]) ==>
                  a.seqNo < |g.sessions[a.fd].asked| && Owed(table, g.sessions[a.fd], g.ran, a))
  {
    var g := Exec(Start(table, maxRequest), steps);
    StartInv(table, maxRequest);
    ExecKept(Start(table, maxRequest), steps);
    assert OkAnswer(g, i);
    if Unwrapped(g.sessions[g.log[i].fd]) {
      SettledIsOwed(g, i);
    }
  }

  /** A handler is called once for a request at most: what a call came to is never replaced. */
  lemma CalledOnce(table: seq<Entry>, maxRequest: int, past: seq<Step>, future: seq<Step>, id: Id)
    requires id in Exec(Start(table, maxRequest), past).ran
    ensures var g, h := Exec(Start(table, maxRequest), past), Exec(Exec(Start(table, maxRequest), past), future);
            && id.fd in h.sessions
            && (Unwrapped(h.sessions[id.fd]) ==>
                  && id in h.ran && h.ran[id] == g.ran[id]
                  && Asks(h.sessions[id.fd], id.seqNo, h.ran[id].request))
  {
    var g := Exec(Start(table, maxRequest), past);
    ReachableInv(table, maxRequest, past);
    ExecKept(g, future);
    var h := Exec(g, future);
    assert CallKept(g, h, id);
    assert id in h.ran ==> OkCall(h, id);
  }

  /** What the background thread gets out of a waiting task is what its request is answered with: the
      handler is called with the request that came with the sequence number, and over every run its
      outcome stays in the slot until it is queued, unless the request is answered BUSY or its session
      is gone. */
  lemma OutcomeIsDelivered(g: Gateway, i: nat, run: Outcomes, future: seq<Step>)
    requires Inv(g) && i < |g.slots| && Pending(g.slots[i])
    ensures var t, b, h := Finished(g.slots[i], run(i)), Batch(g, run), Exec(Batch(g, run), future);
            && t.fd in g.sessions
            && (Unwrapped(g.sessions[t.fd]) ==>
                  && Asks(g.sessions[t.fd], t.seqNo, Request(t.cmd, t.params))
                  && Id(t.fd, t.seqNo) !in g.ran && Id(t.fd, t.seqNo) in b.ran
                  && b.ran[Id(t.fd, t.seqNo)] == Call(Request(t.cmd, t.params), run(i)))
            && |h.slots| == |g.slots| && (h.slots[i] == t || Delivered(h, t))
  {
    assert OkTask(g, i);
    var b := Batch(g, run);
    BatchKept(g, run);
    BatchCalls(g, run, i);
    assert b.slots[i] == Finished(g.slots[i], run(i));
    ExecKept(b, future);
    assert TaskKept(b, Exec(b, future), i);
  }

  // --- One frame ---

  /** How a request that is not filed is settled: by whether its command takes the parameters, by what the
      socket does, and by whether the ring has room. */
  function Settling(g: Gateway, fd: int, r: Request, send: SendOutcome): How
    requires fd in g.sessions
  {
    if !Accepts(g.table, r.cmd, r.payload) then Refused
    else if send == SentAll then Direct
    else if send == SendWouldBlock && |g.sessions[fd].ring| < 63 then RingSync
    else Failed
  }

  /** The request waits in a slot that was free, under number n, and nothing else happened. */
  predicate FiledAs(g: Gateway, h: Gateway, fd: int, n: U32, r: Request, i: nat) {
    && i < |g.slots| && !g.slots[i].valid && |h.slots| == |g.slots| && h.slots == g.slots[i := h.slots[i]]
    && Holds(h.slots[i], fd, n) && Pending(h.slots[i]) && h.slots[i].cmd == r.cmd && h.slots[i].params == r.payload
    && h.log == g.log && h.ran == g.ran
  }

  /** Number n is settled; a queued reply leaves the session waiting for room, with no read event on its
      way. */
  predicate SettledBy(g: Gateway, h: Gateway, fd: int, n: U32, how: How)
    requires fd in g.sessions && fd in h.sessions
  {
    && h.slots == g.slots && |h.log| == |g.log| + 1 && g.log <= h.log
    && var a, s, t := h.log[|g.log|], g.sessions[fd], h.sessions[fd];
       && a.fd == fd && a.seqNo == n && a.how == how
       && (how == RingSync ==> |a.direct| == 1 && t.writing && !Readable(t))
       && t.queued == s.queued + (if how == RingSync && |a.direct| == 1 then [Queued(n, a.direct[0])] else [])
  }

  /** A valid frame takes the next number. It is filed if and only if its command is left to the background
      thread and some slot is free; otherwise the number is settled at once. */
  lemma FrameGoes(g: Gateway, fd: int, r: Request, env: Env)
    requires Live(g, fd)
    ensures var h, n := GoodFrame(g, fd, r, env), g.sessions[fd].next;
            && fd in h.sessions && h.sessions[fd].asked == g.sessions[fd].asked + [Some(r)]
            && if Blocks(g.table, r.cmd) && exists i :: 0 <= i < |g.slots| && !g.slots[i].valid then
                 (exists i :: FiledAs(g, h, fd, n, r, i)) && h.sessions[fd].expected == g.sessions[fd].expected
               else SettledBy(g, h, fd, n, Settling(g, fd, r, env.send))
  {
    var h := GoodFrame(g, fd, r, env);
    if GoesAsync(g, r) {
      assert FiledAs(g, h, fd, g.sessions[fd].next, r, FirstFree(g.slots));
    } else if Accepts(g.table, r.cmd, r.payload) {
      RepliedIsCall(g.table, r, env.outcome);
      assert h == Synced(g, fd, Call(r, env.outcome), env.send);
      SyncedIs(g, fd, Call(r, env.outcome), env.send);
    }
  }

  // --- Writing ---

  /** In every reachable state a session of the list waits for room to write only while its ring is not
      empty. */
  lemma WaitsToWriteWithFrames(table: seq<Entry>, maxRequest: int, steps: seq<Step>, fd: int)
    requires Live(Exec(Start(table, maxRequest), steps), fd)
    ensures var s := Exec(Start(table, maxRequest), steps).sessions[fd]; s.writing ==> s.ring != []
  {
    ReachableInv(table, maxRequest, steps);
    assert OkSession(Exec(Start(table, maxRequest), steps), fd);
  }

  /** A write event leaves the connection alone if and only if it cannot come, or the first frame in the
      ring is untouched, the first write takes something and no write that follows fails. */
  lemma WritableSurvivesIff(g: Gateway, fd: int, kernel: Kernel)
    requires Serving(g, fd)
    ensures var h := Writable(g, fd, true, kernel);
            && (Serving(h, fd) <==> (g.sessions[fd].writing ==> GoesWell(g.sessions[fd].ring, kernel)))
            && (!Serving(h, fd) ==> !Live(h, fd) && fd in h.gone)
  {
    DrainGoesWellIff(g.sessions[fd].ring, kernel);
  }

  /** The write call itself switches the descriptor back to reading if and only if every write it made ended
      at the end of a frame. */
  lemma WriteCallSwitchesBackIff(s: Session, kernel: Kernel)
    requires s.writing
    ensures !AfterDrain(s, kernel).writing <==> WholeFrames(s.ring, kernel, 0)
  {
    DrainEmptiesIff(s.ring, kernel, 0);
    FatalLeavesFrames(s.ring, kernel, 0);
  }

  lemma FatalLeavesFrames(p: seq<RespSlot>, kernel: Kernel, i: nat)
    requires Disciplined(p)
    ensures Drain(p, kernel, i).fatal ==> Drain(p, kernel, i).pending != []
    decreases |Unsent(p)|
  {
    if p != [] && Gathered(p, BATCH) != 0 {
      var n := |Taken(p, kernel(i))|;
      if n > 0 {
        DrainGoesOn(p, kernel, i, n);
        FatalLeavesFrames(Advance(p, n), kernel, i + 1);
      }
    }
  }

  /** One that goes well switches the descriptor back to reading, and leaves frames behind if and only if
      some write it made did not end at the end of a frame. */
  lemma WritableLeavesFramesIff(g: Gateway, fd: int, kernel: Kernel)
    requires Serving(g, fd) && g.sessions[fd].writing && GoesWell(g.sessions[fd].ring, kernel)
    ensures var h := Writable(g, fd, true, kernel);
            && Serving(h, fd) && !h.sessions[fd].writing
            && (h.sessions[fd].ring != [] <==> !WholeFrames(g.sessions[fd].ring, kernel, 0))
  {
    WritableSurvivesIff(g, fd, kernel);
    DrainEmptiesIff(g.sessions[fd].ring, kernel, 0);
  }

  /** Frames left behind stay where they are: while the descriptor waits for something to read, no run
      gets a byte out of the ring before another response is queued on the session. */
  lemma LeftFramesWait(g: Gateway, fd: int, future: seq<Step>)
    requires Inv(g) && fd in g.sessions && !g.sessions[fd].writing
    ensures var h := Exec(g, future);
            && fd in h.sessions && g.sessions[fd].queued <= h.sessions[fd].queued
            && (h.sessions[fd].queued == g.sessions[fd].queued ==>
                  && h.sessions[fd].ring == g.sessions[fd].ring && h.sessions[fd].accepted == g.sessions[fd].accepted
                  && !h.sessions[fd].writing)
  {
    ExecKept(g, future);
    assert SessionKept(g, Exec(g, future), fd);
  }

  /** A frame that the kernel took only in part is never finished: over every run the session sends
      no further byte from its ring, and the next write event ends it. */
  lemma PartlySentEndsSession(g: Gateway, fd: int, future: seq<Step>, kernel: Kernel)
    requires Inv(g) && Live(g, fd) && PartlySent(g.sessions[fd].ring)
    ensures var h := Exec(g, future);
            && fd in h.sessions && h.sessions[fd].accepted == g.sessions[fd].accepted
            && (h.sessions[fd].writing ==> !Serving(Writable(h, fd, true, kernel), fd))
  {
    ExecKept(g, future);
    var h := Exec(g, future);
    assert SessionKept(g, h, fd);
    if h.sessions[fd].writing {
      PartlySentEnds(h, fd, kernel);
    }
  }

  lemma PartlySentEnds(g: Gateway, fd: int, kernel: Kernel)
    requires fd in g.sessions && g.sessions[fd].writing && PartlySent(g.sessions[fd].ring)
    ensures !Serving(Writable(g, fd, true, kernel), fd)
  {
    if Live(g, fd) {
      PartlySentIsStuck(g.sessions[fd].ring, kernel, 0);
    }
  }

  /** A write event loses a byte of the next request, and goes on without it, if and only if it can come,
      a head was read and not yet scanned, and the event goes well. */
  lemma WritableForgetsIff(g: Gateway, fd: int, kernel: Kernel)
    requires Inv(g) && Serving(g, fd)
    ensures var h := Writable(g, fd, true, kernel);
            && fd in h.sessions
            && (Serving(h, fd) && h.sessions[fd].body != g.sessions[fd].body
                <==> g.sessions[fd].writing && g.sessions[fd].body == [HEAD] && GoesWell(g.sessions[fd].ring, kernel))
  {
    assert OkSession(g, fd);
    WritableSurvivesIff(g, fd, kernel);
  }

  // --- Where the order ends ---

  /** The 32-bit counter is where the order ends: a synchronous reply turns the expected number back
      if and only if it answers request 2^32 - 1 and an earlier response was already released... */
  lemma SyncReplyTurnsBackIff(g: Gateway, fd: int, c: Call, send: SendOutcome)
    requires Inv(g) && Live(g, fd) && Unwrapped(g.sessions[fd])
    ensures var s, h := g.sessions[fd], Synced(g, fd, c, send);
            fd in h.sessions
            && (h.sessions[fd].expected < s.expected <==> s.requests == U32_MOD - 1 && s.expected > 0)
  {
    assert OkSession(g, fd);
    NumberTurnsBackIff(g.sessions[fd], c, send);
    SyncedIs(g, fd, c, send);
  }

  lemma NumberTurnsBackIff(s: Session, c: Call, send: SendOutcome)
    requires Counting(s) && Unwrapped(s)
    ensures SyncedSession(s, c, send).expected < s.expected <==> s.requests == U32_MOD - 1 && s.expected > 0
  {
    NextIsRequests(s);
  }

  /** ... and the flush does, at a slot, if and only if it releases response 2^32 - 1 there. */
  lemma FlushTurnsBackIff(g: Gateway, fd: int, i: nat)
    requires Live(g, fd) && i < |g.slots|
    ensures var t, h := g.slots[i], FlushSlot(g, i);
            fd in h.sessions
            && (h.sessions[fd].expected < g.sessions[fd].expected
                <==> t.valid && t.completed && t.fd == fd && t.seqNo == g.sessions[fd].expected == U32_MOD - 1)
  {
    if g.slots[i].valid && g.slots[i].completed && Live(g, g.slots[i].fd)
       && g.slots[i].seqNo == g.sessions[g.slots[i].fd].expected {
      SlotAdvances(g, i, fd);
    }
  }
}
