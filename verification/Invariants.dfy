// What every step of the gateway keeps, and what it never takes back.

module Invariants {
  import opened Bytes
  import opened Requests
  import opened Responses
  import opened ResponseRing
  import opened Router
  import opened Gateway
  import opened Histories

  /** Fewer than 2^32 requests so far: the 32-bit counters have not wrapped. */
  predicate Unwrapped(s: Session) { s.requests < U32_MOD }

  predicate Counting(s: Session) {
    && s.next == s.requests % U32_MOD
    && (Unwrapped(s) ==> s.expected <= s.requests && Increasing(s.queued, s.expected))
  }

  /** The bytes the kernel took, then the bytes in the ring, are all response frames in order. */
  predicate BytesKept(s: Session) { s.accepted + Unsent(s.ring) == WireAll(Replies(s.queued)) }

  /** The session took this sequence number for this request. */
  predicate Asks(s: Session, n: int, r: Request) { 0 <= n < |s.asked| && s.asked[n] == Some(r) }

  /** The response is what the call made for its number came to. */
  predicate Echoes(ran: map<Id, Call>, fd: int, q: Queued) {
    Id(fd, q.seqNo) in ran && q.reply == ReplyOf(ran[Id(fd, q.seqNo)])
  }

  predicate AllEcho(s: Session, ran: map<Id, Call>, fd: int) {
    Unwrapped(s) ==> forall i :: 0 <= i < |s.queued| ==> Echoes(ran, fd, s.queued[i])
  }

  /** The number was settled as recorded: what went to the socket past the ring is the reply of the one
      call made for it, or the error frame that belongs to it. */
  predicate Settles(table: seq<Entry>, s: Session, ran: map<Id, Call>, a: Answer) {
    var id := Id(a.fd, a.seqNo);
    && a.seqNo < |s.asked|
    && var what := s.asked[a.seqNo];
       match a.how
       case Refused =>
         && (what.Some? ==> !Accepts(table, what.value.cmd, what.value.payload))
         && a.direct == [if what.None? then CHECKSUM_REPLY else Refusal(table, what.value.cmd)]
       case Direct => AtOnce(table, ran, id) && a.direct == [ReplyOf(ran[id])]
       case RingSync => AtOnce(table, ran, id) && a.direct == [ReplyOf(ran[id])]
       case Failed => AtOnce(table, ran, id) && a.direct == [ReplyOf(ran[id]), Failure(ran[id].request.cmd, ERR_INTERNAL)]
       case Busy => Later(table, ran, id) && a.direct == [Failure(ran[id].request.cmd, ERR_BUS_BUSY)]
       case RingAsync => Later(table, ran, id) && a.direct == []
       case Dropped => what.Some? && Blocks(table, what.value.cmd) && !s.open && a.direct == []
  }

  /** The call was made on the spot, for a request that the router lets through. */
  predicate AtOnce(table: seq<Entry>, ran: map<Id, Call>, id: Id) {
    id in ran && Accepts(table, ran[id].request.cmd, ran[id].request.payload)
  }

  /** The call was made by the background thread, for a command that is left to it. */
  predicate Later(table: seq<Entry>, ran: map<Id, Call>, id: Id) { id in ran && Blocks(table, ran[id].request.cmd) }

  /** The descriptor waits for room to write only while there is something to write. */
  predicate Armed(s: Session) { s.open && s.writing ==> s.ring != [] }

  predicate BodySmall(s: Session) { s.body == [] || s.body == [HEAD] }

  predicate HistoryKept(s: Session, issued: seq<Id>, log: seq<Answer>, fd: int) {
    && RingFor(log, fd) == QueuedSeqs(s.queued)
    && (Unwrapped(s) ==> IssuedFor(issued, fd) == Iota(s.requests))
    && (Unwrapped(s) && OnlyAsync(log, fd) ==> LogFor(log, fd) == Iota(s.expected))
  }

  predicate SessionInv(s: Session, issued: seq<Id>, log: seq<Answer>, fd: int) {
    Counting(s) && BytesKept(s) && Armed(s) && BodySmall(s) && HistoryKept(s, issued, log, fd)
  }

  /** A task carries the request its number was taken for; the handler was called for it when it is
      completed and not before, and then its slot holds what came out. */
  predicate TaskInv(t: Task, sessions: map<int, Session>, ran: map<Id, Call>) {
    && (t.completed ==> t.valid)
    && (t.valid ==>
          && t.fd in sessions
          && (Unwrapped(sessions[t.fd]) ==>
                && Asks(sessions[t.fd], t.seqNo, Request(t.cmd, t.params))
                && if t.completed then Finds(t, ran) else Id(t.fd, t.seqNo) !in ran))
  }

  predicate Finds(t: Task, ran: map<Id, Call>) {
    var id := Id(t.fd, t.seqNo);
    && id in ran && ran[id].request == Request(t.cmd, t.params)
    && t.code == ErrorOf(ran[id].outcome.ret) && t.resp == ran[id].outcome.data
  }

  // The quantifiers below are instantiated by naming OkSession, OkTask, OkCall, OkAnswer, SessionKept,
  // TaskKept or CallKept.

  predicate OkSession(g: Gateway, fd: int)
    requires fd in g.sessions
  {
    SessionInv(g.sessions[fd], g.issued, g.log, fd) && AllEcho(g.sessions[fd], g.ran, fd)
  }

  predicate OkTask(g: Gateway, i: nat)
    requires i < |g.slots|
  {
    TaskInv(g.slots[i], g.sessions, g.ran) && (g.slots[i].valid ==> Blocks(g.table, g.slots[i].cmd))
  }

  ghost predicate TasksInv(g: Gateway) {
    |g.slots| == QUEUE_DEPTH && forall i {:trigger OkTask(g, i)} :: 0 <= i < |g.slots| ==> OkTask(g, i)
  }

  /** The handler was given the request the number was taken for. */
  predicate OkCall(g: Gateway, id: Id)
    requires id in g.ran
  {
    id.fd in g.sessions && (Unwrapped(g.sessions[id.fd]) ==> Asks(g.sessions[id.fd], id.seqNo, g.ran[id].request))
  }

  ghost predicate CallsInv(g: Gateway) {
    forall id {:trigger OkCall(g, id)} :: id in g.ran ==> OkCall(g, id)
  }

  predicate OkAnswer(g: Gateway, i: nat)
    requires i < |g.log|
  {
    var a := g.log[i];
    a.fd in g.sessions && (Unwrapped(g.sessions[a.fd]) ==> Settles(g.table, g.sessions[a.fd], g.ran, a))
  }

  ghost predicate AnswersInv(g: Gateway) {
    forall i {:trigger OkAnswer(g, i)} :: 0 <= i < |g.log| ==> OkAnswer(g, i)
  }

  /** Every issued sequence number is settled once or waits in one slot. */
  predicate Conserved(g: Gateway) { multiset(g.issued) == LogIds(g.log) + Outstanding(g.slots) }

  predicate Recorded(g: Gateway) {
    forall i :: 0 <= i < |g.issued| ==> g.issued[i].fd in g.sessions
  }

  ghost predicate SessionsInv(g: Gateway) {
    forall fd {:trigger OkSession(g, fd)} :: fd in g.sessions ==> OkSession(g, fd)
  }

  ghost predicate Inv(g: Gateway) {
    SessionsInv(g) && TasksInv(g) && CallsInv(g) && AnswersInv(g) && Conserved(g) && Recorded(g)
  }

  // --- What is never taken back ---

  predicate SessionGrows(s: Session, t: Session) {
    && (t.open ==> s.open) && s.asked <= t.asked
    && s.queued <= t.queued && s.accepted <= t.accepted
    && (Unwrapped(t) ==> s.expected <= t.expected)
    && (PartlySent(s.ring) ==> PartlySent(t.ring) && t.accepted == s.accepted)
    && (!s.writing && t.queued == s.queued ==> !t.writing && t.ring == s.ring && t.accepted == s.accepted)
  }

  predicate SessionKept(g: Gateway, h: Gateway, fd: int)
    requires fd in g.sessions
  {
    fd in h.sessions && SessionGrows(g.sessions[fd], h.sessions[fd])
  }

  /** What the handler of a completed task came to was queued as its response, or the task was
      answered BUSY, or its session was gone. */
  predicate Delivered(h: Gateway, t: Task) {
    || (t.fd in h.sessions && Queued(t.seqNo, Meaning(t.cmd, t.code, t.resp)) in h.sessions[t.fd].queued)
    || Answer(t.fd, t.seqNo, Busy, [Failure(t.cmd, ERR_BUS_BUSY)]) in h.log
    || Answer(t.fd, t.seqNo, Dropped, []) in h.log
  }

  /** A completed task leaves its slot only by being delivered. */
  predicate TaskKept(g: Gateway, h: Gateway, i: nat)
    requires i < |g.slots| == |h.slots|
  {
    var t := g.slots[i];
    t.valid && t.completed ==> h.slots[i] == t || Delivered(h, t)
  }

  /** A call is made once: what it came to is never replaced. */
  predicate CallKept(g: Gateway, h: Gateway, id: Id)
    requires id in g.ran
  {
    id.fd in h.sessions && (Unwrapped(h.sessions[id.fd]) ==> id in h.ran && h.ran[id] == g.ran[id])
  }

  ghost predicate Grows(g: Gateway, h: Gateway) {
    && h.table == g.table && h.maxRequest == g.maxRequest && |h.slots| == |g.slots|
    && g.log <= h.log && g.issued <= h.issued && g.gone <= h.gone
    && (forall id {:trigger CallKept(g, h, id)} :: id in g.ran ==> CallKept(g, h, id))
    && (forall fd {:trigger SessionKept(g, h, fd)} :: fd in g.sessions ==> SessionKept(g, h, fd))
    && (forall i {:trigger TaskKept(g, h, i)} :: 0 <= i < |g.slots| ==> TaskKept(g, h, i))
  }

  lemma GrowsRefl(g: Gateway)
    requires CallsInv(g)
    ensures Grows(g, g)
  {
    forall id | id in g.ran ensures CallKept(g, g, id) {
      assert OkCall(g, id);
    }
  }

  lemma DeliveredStays(h: Gateway, k: Gateway, t: Task)
    requires Delivered(h, t) && h.log <= k.log && (t.fd in h.sessions ==> SessionKept(h, k, t.fd))
    ensures Delivered(k, t)
  {
  }

  lemma TaskKeptTwice(g: Gateway, h: Gateway, k: Gateway, i: nat)
    requires Grows(g, h) && Grows(h, k) && i < |g.slots|
    ensures TaskKept(g, k, i)
  {
    assert TaskKept(g, h, i) && TaskKept(h, k, i);
    var t := g.slots[i];
    assert t.fd in g.sessions ==> SessionKept(g, h, t.fd);
    assert t.fd in h.sessions ==> SessionKept(h, k, t.fd);
    if Delivered(h, t) {
      DeliveredStays(h, k, t);
    }
  }

  lemma CallKeptTwice(g: Gateway, h: Gateway, k: Gateway, id: Id)
    requires Grows(g, h) && Grows(h, k) && id in g.ran
    ensures CallKept(g, k, id)
  {
    assert CallKept(g, h, id) && SessionKept(h, k, id.fd);
    assert id in h.ran ==> CallKept(h, k, id);
  }

  lemma GrowsTrans(g: Gateway, h: Gateway, k: Gateway)
    requires Grows(g, h) && Grows(h, k)
    ensures Grows(g, k)
  {
    forall fd | fd in g.sessions ensures SessionKept(g, k, fd) {
      assert SessionKept(g, h, fd) && SessionKept(h, k, fd);
    }
    forall i | 0 <= i < |g.slots| ensures TaskKept(g, k, i) {
      TaskKeptTwice(g, h, k, i);
    }
    forall id | id in g.ran ensures CallKept(g, k, id) {
      CallKeptTwice(g, h, k, id);
    }
  }

  /** At most one entry, of that connection, is appended. */
  predicate LogStep(log: seq<Answer>, next: seq<Answer>, fd: int) {
    next == log || (log < next && |next| == |log| + 1 && next[|log|].fd == fd)
  }

  predicate IssueStep(issued: seq<Id>, next: seq<Id>, fd: int) {
    next == issued || (issued < next && |next| == |issued| + 1 && next[|issued|].fd == fd)
  }

  lemma OthersKeepHistory(s: Session, issued: seq<Id>, issued': seq<Id>, log: seq<Answer>, log': seq<Answer>, fd: int, k: int)
    requires LogStep(log, log', fd) && IssueStep(issued, issued', fd) && k != fd
    requires HistoryKept(s, issued, log, k)
    ensures HistoryKept(s, issued', log', k)
  {
    if log' != log {
      assert log' == log + [log'[|log|]];
      LogGrows(log, log'[|log|], k);
      OnlyAsyncGrows(log, log'[|log|], k);
    }
    if issued' != issued {
      assert issued' == issued + [issued'[|issued|]];
      IssuedGrows(issued, issued'[|issued|], k);
    }
  }

  /** At most one call is noted, for the next number of that connection. */
  predicate RanStep(g: Gateway, h: Gateway, fd: int) {
    || h.ran == g.ran
    || (fd in g.sessions
        && var id := Id(fd, g.sessions[fd].next);
           id in h.ran && h.ran == g.ran[id := h.ran[id]])
  }

  /** One step that may touch one session, one log, issue and call entry of that session. */
  ghost predicate Local(g: Gateway, h: Gateway, fd: int) {
    && h.table == g.table && h.maxRequest == g.maxRequest && |h.slots| == |g.slots|
    && g.gone <= h.gone
    && fd in h.sessions && h.sessions == g.sessions[fd := h.sessions[fd]]
    && LogStep(g.log, h.log, fd) && IssueStep(g.issued, h.issued, fd) && RanStep(g, h, fd)
  }

  lemma LocalRecorded(g: Gateway, h: Gateway, fd: int)
    requires Recorded(g) && Local(g, h, fd)
    ensures Recorded(h)
  {
    forall i | 0 <= i < |h.issued| ensures h.issued[i].fd in h.sessions {
      assert i < |g.issued| ==> h.issued[i] == g.issued[i];
    }
  }

  // --- What such a step adds ---

  /** A call it notes is one for the request its number was taken for. */
  predicate NewCall(g: Gateway, h: Gateway, fd: int)
    requires fd in g.sessions && fd in h.sessions
  {
    var n := g.sessions[fd].next;
    h.ran == g.ran
    || (Id(fd, n) in h.ran && (Unwrapped(h.sessions[fd]) ==> Asks(h.sessions[fd], n, h.ran[Id(fd, n)].request)))
  }

  /** A number it settles is settled as recorded. */
  predicate NewAnswer(g: Gateway, h: Gateway, fd: int)
    requires fd in h.sessions
  {
    h.log == g.log
    || (|h.log| > |g.log|
        && (Unwrapped(h.sessions[fd]) ==> Settles(h.table, h.sessions[fd], h.ran, h.log[|g.log|])))
  }

  /** A response it queues is the outcome of its call. */
  predicate NewQueued(g: Gateway, h: Gateway, fd: int)
    requires fd in g.sessions && fd in h.sessions
  {
    var p, q := g.sessions[fd].queued, h.sessions[fd].queued;
    q == p || (|q| > |p| && q == p + [q[|p|]] && (Unwrapped(h.sessions[fd]) ==> Echoes(h.ran, fd, q[|p|])))
  }

  ghost predicate Sound(g: Gateway, h: Gateway, fd: int)
    requires fd in g.sessions && fd in h.sessions
  {
    SessionGrows(g.sessions[fd], h.sessions[fd]) && NewCall(g, h, fd) && NewAnswer(g, h, fd) && NewQueued(g, h, fd)
  }

  /** Every call made so far stays as it was: the new one is for a number that was not used. */
  lemma LocalCallKept(g: Gateway, h: Gateway, fd: int, id: Id)
    requires Inv(g) && Local(g, h, fd) && fd in g.sessions && Sound(g, h, fd) && id in g.ran
    ensures CallKept(g, h, id)
  {
    var s := g.sessions[fd];
    assert OkCall(g, id);
    assert id.fd != fd ==> h.sessions[id.fd] == g.sessions[id.fd];
    if Unwrapped(h.sessions[id.fd]) {
      if id.fd == fd {
        assert OkSession(g, fd);
        NumberIsUsed(s, id.seqNo);
      }
      CallStays(g, h, fd, id);
    }
  }

  lemma NumberIsUsed(s: Session, n: U32)
    requires Counting(s) && Unwrapped(s) && n < s.requests
    ensures n != s.next
  {
  }

  lemma CallStays(g: Gateway, h: Gateway, fd: int, id: Id)
    requires fd in g.sessions && RanStep(g, h, fd) && id in g.ran && id != Id(fd, g.sessions[fd].next)
    ensures id in h.ran && h.ran[id] == g.ran[id]
  {
  }

  lemma LocalCalls(g: Gateway, h: Gateway, fd: int)
    requires Inv(g) && Local(g, h, fd) && fd in g.sessions && Sound(g, h, fd)
    ensures CallsInv(h) && forall id {:trigger CallKept(g, h, id)} :: id in g.ran ==> CallKept(g, h, id)
  {
    forall id | id in g.ran ensures CallKept(g, h, id) {
      LocalCallKept(g, h, fd, id);
    }
    forall id | id in h.ran ensures OkCall(h, id) {
      if id in g.ran {
        assert OkCall(g, id) && CallKept(g, h, id);
        assert id.fd != fd ==> h.sessions[id.fd] == g.sessions[id.fd];
      }
    }
  }

  lemma SettledStays(table: seq<Entry>, s: Session, t: Session, ran: map<Id, Call>, ran': map<Id, Call>, a: Answer)
    requires Settles(table, s, ran, a) && s.asked <= t.asked && (t.open ==> s.open)
    requires var id := Id(a.fd, a.seqNo); id in ran ==> id in ran' && ran'[id] == ran[id]
    ensures Settles(table, t, ran', a)
  {
  }

  lemma LocalAnswers(g: Gateway, h: Gateway, fd: int)
    requires Inv(g) && Local(g, h, fd) && fd in g.sessions && Sound(g, h, fd)
    ensures AnswersInv(h)
  {
    forall i | 0 <= i < |h.log| ensures OkAnswer(h, i) {
      if i < |g.log| {
        var a := g.log[i];
        assert h.log[i] == a;
        assert OkAnswer(g, i);
        var id := Id(a.fd, a.seqNo);
        if id in g.ran {
          LocalCallKept(g, h, fd, id);
        }
        assert a.fd != fd ==> h.sessions[a.fd] == g.sessions[a.fd];
        if Unwrapped(h.sessions[a.fd]) {
          SettledStays(g.table, g.sessions[a.fd], h.sessions[a.fd], g.ran, h.ran, a);
        }
      }
    }
  }

  lemma NewEcho(g: Gateway, h: Gateway, fd: int, i: nat)
    requires fd in g.sessions && fd in h.sessions && NewQueued(g, h, fd) && Unwrapped(h.sessions[fd])
    requires |g.sessions[fd].queued| <= i < |h.sessions[fd].queued|
    ensures Echoes(h.ran, fd, h.sessions[fd].queued[i])
  {
  }

  lemma OldEcho(g: Gateway, h: Gateway, fd: int, i: nat)
    requires fd in g.sessions && OkSession(g, fd) && i < |g.sessions[fd].queued|
    requires fd in h.sessions && SessionGrows(g.sessions[fd], h.sessions[fd]) && Unwrapped(h.sessions[fd])
    requires var id := Id(fd, g.sessions[fd].queued[i].seqNo); id in g.ran ==> CallKept(g, h, id)
    ensures Echoes(h.ran, fd, h.sessions[fd].queued[i])
  {
    assert h.sessions[fd].queued[i] == g.sessions[fd].queued[i];
    assert Echoes(g.ran, fd, g.sessions[fd].queued[i]);
  }

  lemma LocalEchoAt(g: Gateway, h: Gateway, fd: int, k: int, i: nat)
    requires Inv(g) && Local(g, h, fd) && fd in g.sessions && Sound(g, h, fd) && k in g.sessions
    requires Unwrapped(h.sessions[k]) && i < |h.sessions[k].queued|
    ensures Echoes(h.ran, k, h.sessions[k].queued[i])
  {
    assert SessionGrows(g.sessions[k], h.sessions[k]);
    if i < |g.sessions[k].queued| {
      var id := Id(k, g.sessions[k].queued[i].seqNo);
      assert OkSession(g, k);
      if id in g.ran {
        LocalCallKept(g, h, fd, id);
      }
      OldEcho(g, h, k, i);
    } else {
      assert k == fd;
      NewEcho(g, h, fd, i);
    }
  }

  lemma LocalEcho(g: Gateway, h: Gateway, fd: int, k: int)
    requires Inv(g) && Local(g, h, fd) && fd in g.sessions && Sound(g, h, fd) && k in g.sessions
    ensures AllEcho(h.sessions[k], h.ran, k)
  {
    var s := h.sessions[k];
    if Unwrapped(s) {
      forall i | 0 <= i < |s.queued| ensures Echoes(h.ran, k, s.queued[i]) {
        LocalEchoAt(g, h, fd, k, i);
      }
    }
  }

  /** Such a step leaves the invariant of every other session alone. */
  lemma LocalSessions(g: Gateway, h: Gateway, fd: int)
    requires Inv(g) && Local(g, h, fd) && fd in g.sessions && Sound(g, h, fd)
    requires SessionInv(h.sessions[fd], h.issued, h.log, fd)
    ensures SessionsInv(h)
  {
    forall k | k in h.sessions ensures OkSession(h, k) {
      LocalEcho(g, h, fd, k);
      if k != fd {
        assert k in g.sessions && h.sessions[k] == g.sessions[k];
        assert OkSession(g, k);
        OthersKeepHistory(g.sessions[k], g.issued, h.issued, g.log, h.log, fd, k);
      }
    }
  }

  lemma LocalGrows(g: Gateway, h: Gateway, fd: int)
    requires Local(g, h, fd)
    requires fd in g.sessions ==> SessionGrows(g.sessions[fd], h.sessions[fd])
    requires forall i {:trigger TaskKept(g, h, i)} :: 0 <= i < |g.slots| ==> TaskKept(g, h, i)
    requires forall id {:trigger CallKept(g, h, id)} :: id in g.ran ==> CallKept(g, h, id)
    ensures Grows(g, h)
  {
    forall k | k in g.sessions ensures SessionKept(g, h, k) {
      assert k != fd ==> h.sessions[k] == g.sessions[k];
    }
  }
}
