// Each step of the gateway, taken from a state that satisfies the invariant, ends in one and takes
// nothing back.

module Steps {
  import opened Seqs
  import opened Bytes
  import opened Requests
  import opened Scanner
  import opened Responses
  import opened ResponseRing
  import opened Router
  import opened Gateway
  import opened Histories
  import opened Invariants
  import opened Accounting

  // --- Sessions ---

  /** A session after one more sequence number was taken. */
  function Numbered(s: Session, what: Option<Request>): Session { s.(next := Inc32(s.next), asked := s.asked + [what]) }

  lemma IncMod(n: nat)
    ensures Inc32(n % U32_MOD) == (n + 1) % U32_MOD
  {
  }

  lemma IncBelow(n: U32)
    requires n + 1 < U32_MOD
    ensures Inc32(n) == n + 1
  {
  }

  lemma NextIsRequests(s: Session)
    requires Counting(s) && Unwrapped(s)
    ensures s.next == s.requests
    ensures s.requests + 1 < U32_MOD ==> Inc32(s.next) == s.requests + 1
  {
  }

  /** The counters behind one more number. */
  lemma NumberedCounts(s: Session, what: Option<Request>)
    requires Counting(s)
    ensures var m := Numbered(s, what);
            && m.next == m.requests % U32_MOD
            && (Unwrapped(m) ==> s.expected <= s.next == s.requests < Inc32(s.next) == m.requests)
  {
    IncMod(s.requests);
    if Unwrapped(Numbered(s, what)) {
      NextIsRequests(s);
    }
  }

  lemma EnqueueKeepsBytes(s: Session, seqNo: U32, reply: Reply, late: bool)
    requires |s.ring| < DEPTH - 1 && BytesKept(s)
    ensures BytesKept(Enqueue(s, seqNo, reply, late))
  {
    UnsentAppend(s.ring, Wire(reply));
    QueuedGrows(s.queued, Queued(seqNo, reply));
    WireAllAppend(Replies(s.queued), reply);
    Assoc(s.accepted, Unsent(s.ring), Wire(reply));
  }

  /** A new entry at or above every bound so far, below the new bound. */
  lemma IncreasingGrows(queued: seq<Queued>, bound: int, q: Queued, bound': int)
    requires Increasing(queued, bound) && bound <= q.seqNo < bound'
    ensures Increasing(queued + [q], bound') && Increasing(queued, bound')
  {
  }

  /** A response joins the queue in order. */
  lemma QueuedInOrder(s: Session, t: Session, q: Queued)
    requires Counting(s) && t.queued == s.queued + [q]
    requires t.next == t.requests % U32_MOD && s.asked <= t.asked
    requires Unwrapped(t) ==> s.expected <= q.seqNo < t.expected <= t.requests
    ensures Counting(t)
  {
    if Unwrapped(t) {
      IncreasingGrows(s.queued, s.expected, q, t.expected);
    }
  }

  /** A request settled on the spot. */
  lemma AnsweredHistory(s: Session, t: Session, issued: seq<Id>, log: seq<Answer>, a: Answer)
    requires Counting(s) && HistoryKept(s, issued, log, a.fd) && t.requests == s.requests + 1 && a.seqNo == s.next
    requires a.how == Direct || a.how == Failed || a.how == Refused || a.how == RingSync
    requires QueuedSeqs(t.queued) == QueuedSeqs(s.queued) + if a.how == RingSync then [s.next as int] else []
    ensures HistoryKept(t, issued + [Id(a.fd, s.next)], log + [a], a.fd)
  {
    LogGrows(log, a, a.fd);
    OnlyAsyncGrows(log, a, a.fd);
    IssuedGrows(issued, Id(a.fd, s.next), a.fd);
    if Unwrapped(t) {
      NextIsRequests(s);
      IotaNext(s.requests);
    }
  }

  lemma RefusedSession(s: Session, issued: seq<Id>, log: seq<Answer>, a: Answer, what: Option<Request>)
    requires SessionInv(s, issued, log, a.fd) && a.seqNo == s.next && a.how == Refused
    ensures SessionInv(Numbered(s, what), issued + [Id(a.fd, s.next)], log + [a], a.fd)
    ensures SessionGrows(s, Numbered(s, what))
  {
    IncMod(s.requests);
    AnsweredHistory(s, Numbered(s, what), issued, log, a);
  }

  lemma DirectSession(s: Session, issued: seq<Id>, log: seq<Answer>, a: Answer, r: Request)
    requires SessionInv(s, issued, log, a.fd) && a.seqNo == s.next && (a.how == Direct || a.how == Failed)
    ensures var t := Numbered(s, Some(r)).(expected := Inc32(s.next));
            SessionInv(t, issued + [Id(a.fd, s.next)], log + [a], a.fd) && SessionGrows(s, t)
  {
    var t := Numbered(s, Some(r)).(expected := Inc32(s.next));
    IncMod(s.requests);
    AnsweredHistory(s, t, issued, log, a);
    if Unwrapped(t) {
      NextIsRequests(s);
    }
  }

  lemma RingSyncSession(s: Session, issued: seq<Id>, log: seq<Answer>, a: Answer, r: Request, reply: Reply)
    requires SessionInv(s, issued, log, a.fd) && |s.ring| < DEPTH - 1 && a.seqNo == s.next && a.how == RingSync
    ensures var t := Enqueue(Numbered(s, Some(r)), s.next, reply, false).(expected := Inc32(s.next));
            SessionInv(t, issued + [Id(a.fd, s.next)], log + [a], a.fd) && SessionGrows(s, t)
  {
    var m := Numbered(s, Some(r));
    var t := Enqueue(m, s.next, reply, false).(expected := Inc32(s.next));
    NumberedCounts(s, Some(r));
    NextExpected(m, Enqueue(m, s.next, reply, false), t, s.next, reply, false);
    AnsweredHistory(s, t, issued, log, a);
    QueuedInOrder(s, t, Queued(s.next, reply));
  }

  lemma SubmittedSession(s: Session, issued: seq<Id>, log: seq<Answer>, fd: int, r: Request)
    requires SessionInv(s, issued, log, fd)
    ensures SessionInv(Numbered(s, Some(r)), issued + [Id(fd, s.next)], log, fd) && SessionGrows(s, Numbered(s, Some(r)))
  {
    IncMod(s.requests);
    IssuedGrows(issued, Id(fd, s.next), fd);
    if Unwrapped(Numbered(s, Some(r))) {
      NextIsRequests(s);
      IotaNext(s.requests);
    }
  }

  /** The expected response released by the flush. */
  lemma ReleasedHistory(s: Session, t: Session, issued: seq<Id>, log: seq<Answer>, a: Answer)
    requires Counting(s) && HistoryKept(s, issued, log, a.fd) && t.asked == s.asked && t.expected == Inc32(s.expected)
    requires a.seqNo == s.expected && (a.how == RingAsync || a.how == Busy)
    requires Unwrapped(s) ==> s.expected < s.requests
    requires QueuedSeqs(t.queued) == QueuedSeqs(s.queued) + if a.how == RingAsync then [s.expected as int] else []
    ensures HistoryKept(t, issued, log + [a], a.fd)
  {
    LogGrows(log, a, a.fd);
    OnlyAsyncGrows(log, a, a.fd);
    if Unwrapped(t) {
      IotaNext(s.expected);
    }
  }

  lemma BusySession(s: Session, issued: seq<Id>, log: seq<Answer>, a: Answer)
    requires SessionInv(s, issued, log, a.fd) && (Unwrapped(s) ==> s.expected < s.requests)
    requires a.seqNo == s.expected && a.how == Busy
    ensures var t := s.(expected := Inc32(s.expected));
            SessionInv(t, issued, log + [a], a.fd) && SessionGrows(s, t)
  {
    if Unwrapped(s) {
      IncBelow(s.expected);
    }
    ReleasedHistory(s, s.(expected := Inc32(s.expected)), issued, log, a);
  }

  /** The response is queued, and the next one is expected. */
  lemma NextExpected(s: Session, e: Session, t: Session, seqNo: U32, reply: Reply, late: bool)
    requires |s.ring| < DEPTH - 1 && BytesKept(s) && e == Enqueue(s, seqNo, reply, late) && t == e.(expected := t.expected)
    ensures BytesKept(t) && QueuedSeqs(t.queued) == QueuedSeqs(s.queued) + [seqNo as int]
  {
    EnqueueKeepsBytes(s, seqNo, reply, late);
    QueuedGrows(s.queued, Queued(seqNo, reply));
  }

  lemma RingAsyncSession(s: Session, issued: seq<Id>, log: seq<Answer>, a: Answer, reply: Reply)
    requires SessionInv(s, issued, log, a.fd) && |s.ring| < DEPTH - 1 && (Unwrapped(s) ==> s.expected < s.requests)
    requires a.seqNo == s.expected && a.how == RingAsync
    ensures var t := Enqueue(s, s.expected, reply, Readable(s)).(expected := Inc32(s.expected));
            SessionInv(t, issued, log + [a], a.fd) && SessionGrows(s, t)
  {
    var t := Enqueue(s, s.expected, reply, Readable(s)).(expected := Inc32(s.expected));
    if Unwrapped(s) {
      IncBelow(s.expected);
    }
    NextExpected(s, Enqueue(s, s.expected, reply, Readable(s)), t, s.expected, reply, Readable(s));
    ReleasedHistory(s, t, issued, log, a);
    QueuedInOrder(s, t, Queued(s.expected, reply));
  }

  lemma DroppedSession(s: Session, issued: seq<Id>, log: seq<Answer>, a: Answer)
    requires SessionInv(s, issued, log, a.fd) && a.how == Dropped
    ensures SessionInv(s, issued, log + [a], a.fd) && SessionGrows(s, s)
  {
    LogGrows(log, a, a.fd);
    OnlyAsyncGrows(log, a, a.fd);
  }

  // --- Bags ---

  lemma IssuedBag(issued: seq<Id>, id: Id)
    ensures multiset(issued + [id]) == multiset(issued) + multiset{id}
  {
  }

  /** A request settled on the spot enters both sides of the balance. */
  lemma AnsweredConserved(g: Gateway, h: Gateway, a: Answer)
    requires Conserved(g) && h.slots == g.slots
    requires h.issued == g.issued + [Id(a.fd, a.seqNo)] && h.log == g.log + [a]
    ensures Conserved(h)
  {
    LogGrows(g.log, a, a.fd);
    IssuedBag(g.issued, Id(a.fd, a.seqNo));
    AddBehind(LogIds(g.log), Outstanding(g.slots), multiset(g.issued), multiset{}, multiset{Id(a.fd, a.seqNo)});
  }

  lemma SubmittedConserved(g: Gateway, h: Gateway, i: nat, t: Task)
    requires Conserved(g) && i < |g.slots| && !g.slots[i].valid && t.valid
    requires h.slots == g.slots[i := t] && h.issued == g.issued + [Id(t.fd, t.seqNo)] && h.log == g.log
    ensures Conserved(h)
  {
    IssuedBag(g.issued, Id(t.fd, t.seqNo));
    OutstandingUpdate(g.slots, i, t);
    assert IdOf(g.slots[i]) == multiset{} && IdOf(t) == multiset{Id(t.fd, t.seqNo)};
    assert Outstanding(h.slots) == Outstanding(g.slots) + multiset{Id(t.fd, t.seqNo)};
  }

  lemma ReleasedConserved(g: Gateway, h: Gateway, i: nat, a: Answer)
    requires Conserved(g) && i < |g.slots| && g.slots[i].valid
    requires h.slots == g.slots[i := Freed(g.slots[i])] && h.issued == g.issued
    requires h.log == g.log + [a] && a.fd == g.slots[i].fd && a.seqNo == g.slots[i].seqNo
    ensures Conserved(h)
  {
    var t := g.slots[i];
    LogGrows(g.log, a, t.fd);
    OutstandingUpdate(g.slots, i, Freed(t));
    assert IdOf(t) == multiset{Id(t.fd, t.seqNo)} && IdOf(Freed(t)) == multiset{};
    assert Outstanding(g.slots) == Outstanding(h.slots) + multiset{Id(t.fd, t.seqNo)};
  }

  // --- Steps ---

  ghost predicate Kept(g: Gateway, h: Gateway) { Inv(h) && Grows(g, h) }

  lemma KeptTrans(g: Gateway, h: Gateway, k: Gateway)
    requires Kept(g, h) && Kept(h, k)
    ensures Kept(g, k)
  {
    GrowsTrans(g, h, k);
  }

  lemma KeptRefl(g: Gateway)
    requires Inv(g)
    ensures Kept(g, g)
  {
    GrowsRefl(g);
  }

  /** What the step may do to the task slots: nothing, or fill or empty slot i in a fitting way. */
  ghost predicate SlotStep(g: Gateway, h: Gateway, i: nat)
    requires |h.slots| == |g.slots|
  {
    || h.slots == g.slots
    || (i < |g.slots| && h.slots == g.slots[i := h.slots[i]] && OkTask(h, i) && TaskKept(g, h, i))
  }

  /** A task that nobody touched, in a session that may have taken one more number. */
  lemma TaskStaysOk(g: Gateway, h: Gateway, fd: int, j: nat)
    requires Inv(g) && Local(g, h, fd) && fd in g.sessions && Sound(g, h, fd)
    requires j < |g.slots| && h.slots[j] == g.slots[j]
    ensures OkTask(h, j)
  {
    var t := g.slots[j];
    assert OkTask(g, j);
    if t.valid && Unwrapped(h.sessions[t.fd]) {
      assert t.fd != fd ==> h.sessions[t.fd] == g.sessions[t.fd];
      TaskCall(g, h, fd, t);
    }
  }

  lemma TaskCall(g: Gateway, h: Gateway, fd: int, t: Task)
    requires Inv(g) && Local(g, h, fd) && fd in g.sessions && Sound(g, h, fd)
    requires t.fd in g.sessions && Unwrapped(g.sessions[t.fd]) && t.seqNo < |g.sessions[t.fd].asked|
    requires Unwrapped(h.sessions[t.fd])
    ensures var id := Id(t.fd, t.seqNo);
            (id in h.ran <==> id in g.ran) && (id in g.ran ==> h.ran[id] == g.ran[id])
  {
    var id := Id(t.fd, t.seqNo);
    assert OkSession(g, fd);
    if id in g.ran {
      LocalCallKept(g, h, fd, id);
    } else {
      NotCalled(g, h, fd, id);
    }
  }

  lemma NotCalled(g: Gateway, h: Gateway, fd: int, id: Id)
    requires fd in g.sessions && RanStep(g, h, fd) && Counting(g.sessions[fd]) && id !in g.ran
    requires id.fd == fd ==> Unwrapped(g.sessions[fd]) && id.seqNo < g.sessions[fd].requests
    ensures id !in h.ran
  {
  }

  lemma TaskStays(g: Gateway, h: Gateway, fd: int, j: nat)
    requires Inv(g) && Local(g, h, fd) && fd in g.sessions && Sound(g, h, fd)
    requires j < |g.slots| && h.slots[j] == g.slots[j]
    ensures OkTask(h, j) && TaskKept(g, h, j)
  {
    TaskStaysOk(g, h, fd, j);
    assert OkTask(g, j);
  }

  /** A step of one session. */
  lemma LocalKept(g: Gateway, h: Gateway, fd: int, i: nat)
    requires Inv(g) && Local(g, h, fd) && Conserved(h) && fd in g.sessions
    requires SessionInv(h.sessions[fd], h.issued, h.log, fd) && Sound(g, h, fd) && SlotStep(g, h, i)
    ensures Kept(g, h)
  {
    LocalRecorded(g, h, fd);
    LocalCalls(g, h, fd);
    LocalAnswers(g, h, fd);
    LocalSessions(g, h, fd);
    forall j | 0 <= j < |h.slots| ensures OkTask(h, j) && TaskKept(g, h, j) {
      if h.slots[j] == g.slots[j] {
        TaskStays(g, h, fd, j);
      }
    }
    LocalGrows(g, h, fd);
  }

  /** The error frame that belongs to a refused request, or to what is none. */
  function ErrorFrame(table: seq<Entry>, what: Option<Request>): Reply {
    if what.None? then CHECKSUM_REPLY else Refusal(table, what.value.cmd)
  }

  ghost predicate IsRefused(g: Gateway, fd: int, what: Option<Request>, h: Gateway)
    requires fd in g.sessions
  {
    var s := g.sessions[fd];
    h == g.(
      sessions := g.sessions[fd := Numbered(s, what)], issued := g.issued + [Id(fd, s.next)],
      log := g.log + [Answer(fd, s.next, Refused, [ErrorFrame(g.table, what)])])
  }

  lemma RefusedSound(g: Gateway, fd: int, what: Option<Request>, h: Gateway)
    requires what.Some? ==> !Accepts(g.table, what.value.cmd, what.value.payload)
    requires fd in g.sessions && Counting(g.sessions[fd]) && IsRefused(g, fd, what, h)
    requires SessionGrows(g.sessions[fd], h.sessions[fd])
    ensures Local(g, h, fd) && Sound(g, h, fd)
  {
    if Unwrapped(h.sessions[fd]) {
      NextIsRequests(g.sessions[fd]);
      assert h.sessions[fd].asked[g.sessions[fd].next] == what;
    }
  }

  /** A sequence number that is settled by an error frame. */
  lemma RefusedKept(g: Gateway, fd: int, what: Option<Request>, h: Gateway)
    requires what.Some? ==> !Accepts(g.table, what.value.cmd, what.value.payload)
    requires Inv(g) && Live(g, fd) && IsRefused(g, fd, what, h)
    ensures Kept(g, h)
  {
    var a := Answer(fd, g.sessions[fd].next, Refused, [ErrorFrame(g.table, what)]);
    assert OkSession(g, fd);
    RefusedSession(g.sessions[fd], g.issued, g.log, a, what);
    AnsweredConserved(g, h, a);
    RefusedSound(g, fd, what, h);
    LocalKept(g, h, fd, 0);
  }

  lemma BadFrameKept(g: Gateway, fd: int)
    requires Inv(g)
    ensures Kept(g, BadFrame(g, fd))
  {
    if Live(g, fd) {
      RefusedKept(g, fd, None, BadFrame(g, fd));
    } else {
      GrowsRefl(g);
    }
  }

  /** The next request of a session is run and answered on the spot. */
  function Synced(g: Gateway, fd: int, c: Call, send: SendOutcome): Gateway
    requires fd in g.sessions
  {
    var n := g.sessions[fd].next;
    SyncReply(Note(Issue(g, fd, Some(c.request)), fd, n, c), fd, n, ReplyOf(c), send)
  }

  predicate Queues(s: Session, send: SendOutcome) { send.SendWouldBlock? && |s.ring| < DEPTH - 1 }

  /** What becomes of the session. */
  function SyncedSession(s: Session, c: Call, send: SendOutcome): Session {
    var t := Numbered(s, Some(c.request));
    (if Queues(s, send) then Enqueue(t, s.next, ReplyOf(c), false) else t).(expected := Inc32(s.next))
  }

  /** How the number is settled. */
  function SyncedAnswer(s: Session, fd: int, c: Call, send: SendOutcome): Answer {
    if send.SentAll? then Answer(fd, s.next, Direct, [ReplyOf(c)])
    else if Queues(s, send) then Answer(fd, s.next, RingSync, [ReplyOf(c)])
    else Answer(fd, s.next, Failed, [ReplyOf(c), Failure(c.request.cmd, ERR_INTERNAL)])
  }

  lemma SyncedIs(g: Gateway, fd: int, c: Call, send: SendOutcome)
    requires fd in g.sessions
    ensures var s := g.sessions[fd];
            Synced(g, fd, c, send) == g.(
              sessions := g.sessions[fd := SyncedSession(s, c, send)], issued := g.issued + [Id(fd, s.next)],
              log := g.log + [SyncedAnswer(s, fd, c, send)], ran := g.ran[Id(fd, s.next) := c])
  {
  }

  lemma SyncedSessionKept(s: Session, issued: seq<Id>, log: seq<Answer>, fd: int, c: Call, send: SendOutcome)
    requires SessionInv(s, issued, log, fd)
    ensures var t := SyncedSession(s, c, send);
            SessionInv(t, issued + [Id(fd, s.next)], log + [SyncedAnswer(s, fd, c, send)], fd) && SessionGrows(s, t)
  {
    var a := SyncedAnswer(s, fd, c, send);
    if Queues(s, send) {
      RingSyncSession(s, issued, log, a, c.request, ReplyOf(c));
    } else {
      DirectSession(s, issued, log, a, c.request);
    }
  }

  lemma SyncReplyKept(g: Gateway, fd: int, c: Call, send: SendOutcome)
    requires Accepts(g.table, c.request.cmd, c.request.payload)
    requires Inv(g) && Live(g, fd)
    ensures Kept(g, Synced(g, fd, c, send))
  {
    SyncedIs(g, fd, c, send);
    SyncedKept(g, fd, c, send, Synced(g, fd, c, send));
  }

  ghost predicate IsSynced(g: Gateway, fd: int, c: Call, send: SendOutcome, h: Gateway)
    requires fd in g.sessions
  {
    var s := g.sessions[fd];
    h == g.(
      sessions := g.sessions[fd := SyncedSession(s, c, send)], issued := g.issued + [Id(fd, s.next)],
      log := g.log + [SyncedAnswer(s, fd, c, send)], ran := g.ran[Id(fd, s.next) := c])
  }

  lemma SyncedSound(g: Gateway, fd: int, c: Call, send: SendOutcome, h: Gateway)
    requires Accepts(g.table, c.request.cmd, c.request.payload)
    requires fd in g.sessions && Counting(g.sessions[fd]) && IsSynced(g, fd, c, send, h)
    requires SessionGrows(g.sessions[fd], h.sessions[fd])
    ensures Local(g, h, fd) && Sound(g, h, fd)
  {
    var s := g.sessions[fd];
    if Unwrapped(h.sessions[fd]) {
      NextIsRequests(s);
      assert Asks(h.sessions[fd], s.next, c.request);
      assert Settles(h.table, h.sessions[fd], h.ran, SyncedAnswer(s, fd, c, send));
    }
  }

  lemma SyncedKept(g: Gateway, fd: int, c: Call, send: SendOutcome, h: Gateway)
    requires Accepts(g.table, c.request.cmd, c.request.payload)
    requires Inv(g) && Live(g, fd) && IsSynced(g, fd, c, send, h)
    ensures Kept(g, h)
  {
    assert OkSession(g, fd);
    SyncedSessionKept(g.sessions[fd], g.issued, g.log, fd, c, send);
    AnsweredConserved(g, h, SyncedAnswer(g.sessions[fd], fd, c, send));
    SyncedSound(g, fd, c, send, h);
    LocalKept(g, h, fd, 0);
  }

  lemma SubmitKept(g: Gateway, fd: int, r: Request, i: nat)
    requires Blocks(g.table, r.cmd)
    requires Inv(g) && Live(g, fd) && i < |g.slots| && !g.slots[i].valid
    ensures Kept(g, File(Issue(g, fd, Some(r)), i, fd, g.sessions[fd].next, r))
  {
    var s, t := g.sessions[fd], Submitted(g.slots[i], fd, g.sessions[fd].next, r);
    var h := File(Issue(g, fd, Some(r)), i, fd, s.next, r);
    assert OkSession(g, fd);
    SubmittedSession(s, g.issued, g.log, fd, r);
    SubmittedConserved(g, h, i, t);
    FiledOk(g, fd, r, i, h);
    LocalKept(g, h, fd, i);
  }

  lemma FiledOk(g: Gateway, fd: int, r: Request, i: nat, h: Gateway)
    requires Blocks(g.table, r.cmd)
    requires Inv(g) && fd in g.sessions && i < |g.slots| && !g.slots[i].valid
    requires h == File(Issue(g, fd, Some(r)), i, fd, g.sessions[fd].next, r)
    ensures OkTask(h, i) && TaskKept(g, h, i)
  {
    var s := g.sessions[fd];
    assert OkSession(g, fd);
    if Unwrapped(h.sessions[fd]) {
      NextIsRequests(s);
      assert Id(fd, s.next) in g.ran ==> OkCall(g, Id(fd, s.next));
    }
  }

  /** What the router replies is the outcome of the call. */
  lemma RepliedIsCall(table: seq<Entry>, r: Request, o: HandlerOutcome)
    ensures var v := Process(table, r.cmd, r.payload, o); v.Replied? ==> v.reply == ReplyOf(Call(r, o))
  {
  }

  lemma GoodFrameKept(g: Gateway, fd: int, r: Request, env: Env)
    requires Inv(g)
    ensures Kept(g, GoodFrame(g, fd, r, env))
  {
    if !Live(g, fd) {
      GrowsRefl(g);
    } else if GoesAsync(g, r) {
      SubmitKept(g, fd, r, FirstFree(g.slots));
    } else {
      match Process(g.table, r.cmd, r.payload, env.outcome)
      case Rejected(_) => RefusedKept(g, fd, Some(r), GoodFrame(g, fd, r, env));
      case Replied(reply) =>
        RepliedIsCall(g.table, r, env.outcome);
        SyncReplyKept(g, fd, Call(r, env.outcome), env.send);
    }
  }

  lemma MeanwhileKept(g: Gateway, batch: Option<Outcomes>)
    requires Inv(g)
    ensures Kept(g, Meanwhile(g, batch))
  {
    if batch.Some? {
      BatchKept(g, batch.value);
    } else {
      GrowsRefl(g);
    }
  }

  lemma OneEventKept(g: Gateway, fd: int, b: seq<Byte>, e: Event, env: Env)
    requires Inv(g) && EventIn(b, e)
    ensures Kept(g, OneEvent(g, fd, b, e, env))
  {
    var g0, h := Meanwhile(g, env.batch), OneEvent(g, fd, b, e, env);
    MeanwhileKept(g, env.batch);
    if e.Refuse? {
      BadFrameKept(g0, fd);
      assert h == BadFrame(g0, fd);
    } else {
      var r := Parsed(b[e.at..e.at + e.size]);
      GoodFrameKept(g0, fd, r, env);
      assert h == GoodFrame(g0, fd, r, env);
    }
    KeptTrans(g, g0, h);
  }

  lemma {:induction false} EventsKept(g: Gateway, fd: int, b: seq<Byte>, es: seq<Event>, env: nat -> Env)
    requires Inv(g) && AllIn(b, es)
    ensures Kept(g, Events(g, fd, b, es, env))
    decreases |es|
  {
    if es == [] {
      GrowsRefl(g);
    } else {
      var n := |es| - 1;
      EventsKept(g, fd, b, es[..n], env);
      var h := Events(g, fd, b, es[..n], env);
      OneEventKept(h, fd, b, es[n], env(n));
      KeptTrans(g, h, OneEvent(h, fd, b, es[n], env(n)));
    }
  }

  /** Steps that touch neither the histories nor the tasks. */
  lemma QuietKept(g: Gateway, h: Gateway, fd: int)
    requires Inv(g) && fd in g.sessions && fd in h.sessions && g.gone <= h.gone
    requires h == g.(sessions := g.sessions[fd := h.sessions[fd]], gone := h.gone)
    requires var s, t := g.sessions[fd], h.sessions[fd];
             && t.next == s.next && t.asked == s.asked && t.expected == s.expected && t.queued == s.queued
             && BytesKept(t) && Armed(t) && BodySmall(t) && SessionGrows(s, t)
    ensures Kept(g, h)
  {
    assert OkSession(g, fd);
    LocalKept(g, h, fd, 0);
  }

  lemma HangUpKept(g: Gateway, fd: int)
    requires Inv(g)
    ensures Kept(g, HangUp(g, fd))
  {
    var h := HangUp(g, fd);
    forall k | k in h.sessions ensures OkSession(h, k) && SessionKept(g, h, k) {
      assert OkSession(g, k);
    }
    forall i | 0 <= i < |h.slots| ensures OkTask(h, i) && TaskKept(g, h, i) {
      assert OkTask(g, i);
    }
    forall id | id in h.ran ensures OkCall(h, id) && CallKept(g, h, id) {
      assert OkCall(g, id);
    }
    forall i | 0 <= i < |h.log| ensures OkAnswer(h, i) {
      assert OkAnswer(g, i);
    }
  }

  lemma CloseKept(g: Gateway, fd: int)
    requires Inv(g)
    ensures Kept(g, Close(g, fd))
  {
    if fd in g.sessions {
      assert OkSession(g, fd);
      QuietKept(g, Close(g, fd), fd);
    } else {
      GrowsRefl(g);
    }
  }

  lemma SetBodyKept(g: Gateway, fd: int, body: seq<Byte>)
    requires Inv(g) && fd in g.sessions && (body == [] || body == [HEAD])
    ensures Kept(g, SetBody(g, fd, body))
  {
    assert OkSession(g, fd);
    QuietKept(g, SetBody(g, fd, body), fd);
  }

  lemma FreshSession(issued: seq<Id>, log: seq<Answer>, fd: int)
    requires (forall i :: 0 <= i < |issued| ==> issued[i].fd != fd) && (forall i :: 0 <= i < |log| ==> log[i].fd != fd)
    ensures SessionInv(FRESH, issued, log, fd)
  {
    NothingFor(issued, log, fd);
    assert Replies([]) == [] && QueuedSeqs([]) == [] && Iota(0) == [];
  }

  lemma NobodyYet(g: Gateway, fd: int)
    requires Inv(g) && fd !in g.sessions
    ensures SessionInv(FRESH, g.issued, g.log, fd)
  {
    forall i | 0 <= i < |g.log| ensures g.log[i].fd != fd {
      assert OkAnswer(g, i);
    }
    FreshSession(g.issued, g.log, fd);
  }

  lemma OpenedKept(g: Gateway, fd: int)
    requires Inv(g)
    ensures Kept(g, Opened(g, fd))
  {
    if fd in g.sessions {
      assert OkSession(g, fd);
      QuietKept(g, Opened(g, fd), fd);
    } else {
      AddedKept(g, fd, Opened(g, fd));
    }
  }

  lemma AddedKept(g: Gateway, fd: int, h: Gateway)
    requires Inv(g) && fd !in g.sessions && h == g.(sessions := g.sessions[fd := FRESH])
    ensures Kept(g, h)
  {
    NobodyYet(g, fd);
    forall k | k in h.sessions ensures OkSession(h, k) {
      assert k != fd ==> OkSession(g, k) && h.sessions[k] == g.sessions[k];
    }
    AddedRecords(g, fd, h);
    LocalGrows(g, h, fd);
  }

  lemma AddedRecords(g: Gateway, fd: int, h: Gateway)
    requires Inv(g) && fd !in g.sessions && h == g.(sessions := g.sessions[fd := FRESH])
    ensures TasksInv(h) && CallsInv(h) && AnswersInv(h)
    ensures forall i {:trigger TaskKept(g, h, i)} :: 0 <= i < |g.slots| ==> TaskKept(g, h, i)
    ensures forall id {:trigger CallKept(g, h, id)} :: id in g.ran ==> CallKept(g, h, id)
  {
    forall j | 0 <= j < |h.slots| ensures OkTask(h, j) && TaskKept(g, h, j) {
      assert OkTask(g, j);
    }
    forall id | id in h.ran ensures OkCall(h, id) && CallKept(g, h, id) {
      assert OkCall(g, id);
    }
    forall i | 0 <= i < |h.log| ensures OkAnswer(h, i) {
      assert OkAnswer(g, i);
    }
  }

  /** What a scan leaves unread is nothing or a lone head. */
  lemma LeftOver(b: seq<Byte>)
    ensures b[Scan(b, 0).stop..] == [] || b[Scan(b, 0).stop..] == [HEAD]
  {
    ScanStop(b, 0);
  }

  lemma ReadOpenKept(g: Gateway, fd: int, read: ReadOutcome, env: nat -> Env)
    requires Inv(g) && fd in g.sessions
    ensures Kept(g, ReadOpen(g, fd, read, env))
  {
    GrowsRefl(g);
    CloseKept(g, fd);
    if read.Data? && read.bytes != [] && Room(g.sessions[fd].body) != 0 {
      ScannedKept(g, fd, ReadIn(g, fd, read.bytes), env);
    }
  }

  /** What a read event can come to. */
  lemma ReceiveIs(g: Gateway, fd: int, registered: bool, read: ReadOutcome, env: nat -> Env)
    ensures var h, w := Receive(g, fd, registered, read, env), ReadOpen(Opened(g, fd), fd, read, env);
            h == g || h == HangUp(g, fd) || h == w || h == HangUp(w, fd)
  {
  }

  lemma ReceiveKept(g: Gateway, fd: int, read: ReadOutcome, env: nat -> Env, h: Gateway)
    requires Inv(g)
    requires var w := ReadOpen(Opened(g, fd), fd, read, env);
             h == g || h == HangUp(g, fd) || h == w || h == HangUp(w, fd)
    ensures Kept(g, h)
  {
    var w := ReadOpen(Opened(g, fd), fd, read, env);
    if h == g {
      GrowsRefl(g);
    } else if h == HangUp(g, fd) {
      HangUpKept(g, fd);
    } else {
      ReadKept(g, fd, read, env, w);
      if h != w {
        HangUpBehind(g, w, fd);
      }
    }
  }

  lemma ReadKept(g: Gateway, fd: int, read: ReadOutcome, env: nat -> Env, h: Gateway)
    requires Inv(g) && h == ReadOpen(Opened(g, fd), fd, read, env)
    ensures Kept(g, h)
  {
    OpenedKept(g, fd);
    var g0 := Opened(g, fd);
    ReadOpenKept(g0, fd, read, env);
    KeptTrans(g, g0, h);
  }

  lemma HangUpBehind(g: Gateway, h: Gateway, fd: int)
    requires Kept(g, h)
    ensures Kept(g, HangUp(h, fd))
  {
    HangUpKept(h, fd);
    KeptTrans(g, h, HangUp(h, fd));
  }

  lemma ScannedKept(g: Gateway, fd: int, b: seq<Byte>, env: nat -> Env)
    requires Inv(g) && fd in g.sessions
    ensures Kept(g, Scanned(g, fd, b, env))
  {
    var f := Scan(b, 0);
    ScanEventsIn(b, 0);
    var g1 := Events(g, fd, b, f.events, env);
    EventsKept(g, fd, b, f.events, env);
    EventsKeepSessions(g, fd, b, f.events, env);
    LeftOver(b);
    var g2 := SetBody(g1, fd, b[f.stop..]);
    SetBodyKept(g1, fd, b[f.stop..]);
    KeptTrans(g, g1, g2);
    CloseKept(g2, fd);
    if |b[f.stop..]| >= g.maxRequest {
      KeptTrans(g, g2, Close(g2, fd));
    }
  }

  // --- The background thread ---

  /** Slot i holds the waiting task of this request. */
  predicate Waits(slots: seq<Task>, i: nat, id: Id)
    requires i < |slots|
  {
    Pending(slots[i]) && Id(slots[i].fd, slots[i].seqNo) == id
  }

  lemma {:induction false} CallsUntouched(slots: seq<Task>, ran: map<Id, Call>, run: Outcomes, n: nat, id: Id)
    requires n <= |slots| && forall i {:trigger Waits(slots, i, id)} :: 0 <= i < n ==> !Waits(slots, i, id)
    ensures var m := CallsAfter(slots, ran, run, n);
            (id in m <==> id in ran) && (id in ran ==> m[id] == ran[id])
    decreases n
  {
    if n > 0 {
      assert !Waits(slots, n - 1, id);
      CallsUntouched(slots, ran, run, n - 1, id);
    }
  }

  /** A waiting task that no other slot repeats is called for once, with its own parameters. */
  lemma {:induction false} CallsMade(slots: seq<Task>, ran: map<Id, Call>, run: Outcomes, n: nat, i: nat, id: Id)
    requires i < n <= |slots| && Waits(slots, i, id)
    requires forall j {:trigger Waits(slots, j, id)} :: 0 <= j < n && j != i ==> !Waits(slots, j, id)
    ensures var m := CallsAfter(slots, ran, run, n);
            id in m && m[id] == Call(Request(slots[i].cmd, slots[i].params), run(i))
    decreases n
  {
    if i < n - 1 {
      assert !Waits(slots, n - 1, id);
      CallsMade(slots, ran, run, n - 1, i, id);
    }
  }

  /** Only what was called before or waits is called for. */
  lemma {:induction false} CallsFrom(slots: seq<Task>, ran: map<Id, Call>, run: Outcomes, n: nat, id: Id) returns (i: nat)
    requires n <= |slots| && id in CallsAfter(slots, ran, run, n) && id !in ran
    ensures i < n && Waits(slots, i, id)
    decreases n
  {
    if Waits(slots, n - 1, id) {
      i := n - 1;
    } else {
      i := CallsFrom(slots, ran, run, n - 1, id);
    }
  }

  /** The call made for a waiting task. */
  lemma BatchCalls(g: Gateway, run: Outcomes, i: nat)
    requires Inv(g) && i < |g.slots| && Pending(g.slots[i])
    ensures var t := g.slots[i];
            t.fd in g.sessions && (Unwrapped(g.sessions[t.fd]) ==>
              var id, m := Id(t.fd, t.seqNo), Batch(g, run).ran;
              id in m && m[id] == Call(Request(t.cmd, t.params), run(i)))
  {
    var t := g.slots[i];
    assert OkTask(g, i);
    if Unwrapped(g.sessions[t.fd]) {
      var id := Id(t.fd, t.seqNo);
      forall j | 0 <= j < |g.slots| && j != i ensures !Waits(g.slots, j, id) {
        if Waits(g.slots, j, id) {
          HeldOnce(g, t.fd, t.seqNo, i, j);
        }
      }
      CallsMade(g.slots, g.ran, run, |g.slots|, i, id);
    }
  }

  lemma BatchCallKept(g: Gateway, run: Outcomes, id: Id)
    requires Inv(g) && id in g.ran
    ensures CallKept(g, Batch(g, run), id)
  {
    assert OkCall(g, id);
    if Unwrapped(g.sessions[id.fd]) {
      forall i | 0 <= i < |g.slots| ensures !Waits(g.slots, i, id) {
        assert OkTask(g, i);
      }
      CallsUntouched(g.slots, g.ran, run, |g.slots|, id);
    }
  }

  lemma BatchOkCall(g: Gateway, run: Outcomes, id: Id)
    requires Inv(g) && id in Batch(g, run).ran
    ensures OkCall(Batch(g, run), id)
  {
    if id in g.ran {
      assert OkCall(g, id);
      BatchCallKept(g, run, id);
    } else {
      var i := CallsFrom(g.slots, g.ran, run, |g.slots|, id);
      assert OkTask(g, i);
      BatchCalls(g, run, i);
    }
  }

  lemma BatchTask(g: Gateway, run: Outcomes, i: nat)
    requires Inv(g) && i < |g.slots|
    ensures var h := Batch(g, run);
            |h.slots| == |g.slots| && OkTask(h, i) && TaskKept(g, h, i) && IdOf(g.slots[i]) == IdOf(h.slots[i])
  {
    var t := g.slots[i];
    assert OkTask(g, i);
    assert Batch(g, run).slots[i] == if Pending(t) then Finished(t, run(i)) else t;
    if Pending(t) {
      BatchCalls(g, run, i);
    } else if t.valid && Id(t.fd, t.seqNo) in g.ran {
      BatchCallKept(g, run, Id(t.fd, t.seqNo));
    }
  }

  lemma BatchAnswer(g: Gateway, run: Outcomes, i: nat)
    requires Inv(g) && i < |g.log|
    ensures OkAnswer(Batch(g, run), i)
  {
    var a, h := g.log[i], Batch(g, run);
    var id := Id(a.fd, a.seqNo);
    assert OkAnswer(g, i);
    if id in g.ran {
      BatchCallKept(g, run, id);
    }
    if Unwrapped(g.sessions[a.fd]) {
      SettledStays(g.table, g.sessions[a.fd], g.sessions[a.fd], g.ran, h.ran, a);
    }
  }

  lemma BatchSession(g: Gateway, run: Outcomes, fd: int)
    requires Inv(g) && fd in g.sessions
    ensures OkSession(Batch(g, run), fd)
  {
    var s := g.sessions[fd];
    assert OkSession(g, fd);
    if Unwrapped(s) {
      forall i | 0 <= i < |s.queued| ensures Echoes(Batch(g, run).ran, fd, s.queued[i]) {
        BatchCallKept(g, run, Id(fd, s.queued[i].seqNo));
      }
    }
  }

  lemma BatchKept(g: Gateway, run: Outcomes)
    requires Inv(g)
    ensures Kept(g, Batch(g, run))
  {
    var h := Batch(g, run);
    forall i | 0 <= i < |g.slots| ensures OkTask(h, i) && TaskKept(g, h, i) && IdOf(g.slots[i]) == IdOf(h.slots[i]) {
      BatchTask(g, run, i);
    }
    OutstandingSame(g.slots, h.slots);
    forall fd | fd in h.sessions ensures OkSession(h, fd) && SessionKept(g, h, fd) {
      BatchSession(g, run, fd);
    }
    forall id | id in h.ran ensures OkCall(h, id) {
      BatchOkCall(g, run, id);
    }
    forall id | id in g.ran ensures CallKept(g, h, id) {
      BatchCallKept(g, run, id);
    }
    forall i | 0 <= i < |h.log| ensures OkAnswer(h, i) {
      BatchAnswer(g, run, i);
    }
  }

  // --- The flush ---

  lemma DroppedSound(g: Gateway, i: nat, h: Gateway)
    requires i < |g.slots| && OkTask(g, i) && g.slots[i].valid && g.slots[i].completed && !Live(g, g.slots[i].fd)
    requires h == FlushSlot(g, i) && g.slots[i].fd in g.sessions
    ensures Local(g, h, g.slots[i].fd) && Sound(g, h, g.slots[i].fd)
  {
    var t := g.slots[i];
    assert h.log[|g.log|] == Answer(t.fd, t.seqNo, Dropped, []);
  }

  lemma DroppedKept(g: Gateway, i: nat)
    requires Inv(g) && i < |g.slots| && g.slots[i].valid && g.slots[i].completed && !Live(g, g.slots[i].fd)
    ensures Kept(g, FlushSlot(g, i))
  {
    var t, h := g.slots[i], FlushSlot(g, i);
    var a := Answer(t.fd, t.seqNo, Dropped, []);
    assert OkTask(g, i);
    assert OkSession(g, t.fd);
    DroppedSession(g.sessions[t.fd], g.issued, g.log, a);
    ReleasedConserved(g, h, i, a);
    DroppedSound(g, i, h);
    ReleasedOk(g, i, h);
    LocalKept(g, h, t.fd, i);
  }

  lemma BusySound(g: Gateway, i: nat, h: Gateway)
    requires i < |g.slots| && OkTask(g, i) && g.slots[i].valid && g.slots[i].completed && Live(g, g.slots[i].fd)
    requires var s := g.sessions[g.slots[i].fd]; g.slots[i].seqNo == s.expected && |s.ring| == DEPTH - 1
    requires h == FlushSlot(g, i) && SessionGrows(g.sessions[g.slots[i].fd], h.sessions[g.slots[i].fd])
    ensures Local(g, h, g.slots[i].fd) && Sound(g, h, g.slots[i].fd)
  {
    var t := g.slots[i];
    assert h.log[|g.log|] == Answer(t.fd, t.seqNo, Busy, [Failure(t.cmd, ERR_BUS_BUSY)]);
  }

  lemma BusyKept(g: Gateway, i: nat)
    requires Inv(g) && i < |g.slots| && g.slots[i].valid && g.slots[i].completed && Live(g, g.slots[i].fd)
    requires var s := g.sessions[g.slots[i].fd]; g.slots[i].seqNo == s.expected && |s.ring| == DEPTH - 1
    ensures Kept(g, FlushSlot(g, i))
  {
    var t, h := g.slots[i], FlushSlot(g, i);
    var s, a := g.sessions[t.fd], Answer(t.fd, t.seqNo, Busy, [Failure(t.cmd, ERR_BUS_BUSY)]);
    assert OkTask(g, i);
    assert OkSession(g, t.fd);
    BusySession(s, g.issued, g.log, a);
    assert h.sessions[t.fd] == s.(expected := Inc32(s.expected));
    ReleasedConserved(g, h, i, a);
    BusySound(g, i, h);
    ReleasedOk(g, i, h);
    LocalKept(g, h, t.fd, i);
  }

  lemma RingAsyncSound(g: Gateway, i: nat, h: Gateway)
    requires i < |g.slots| && OkTask(g, i) && g.slots[i].valid && g.slots[i].completed && Live(g, g.slots[i].fd)
    requires var s := g.sessions[g.slots[i].fd]; g.slots[i].seqNo == s.expected && |s.ring| < DEPTH - 1
    requires h == FlushSlot(g, i) && SessionGrows(g.sessions[g.slots[i].fd], h.sessions[g.slots[i].fd])
    ensures Local(g, h, g.slots[i].fd) && Sound(g, h, g.slots[i].fd)
  {
    var t := g.slots[i];
    assert h.log[|g.log|] == Answer(t.fd, t.seqNo, RingAsync, []);
    assert h.sessions[t.fd].queued == g.sessions[t.fd].queued + [Queued(t.seqNo, Meaning(t.cmd, t.code, t.resp))];
  }

  lemma RingAsyncKept(g: Gateway, i: nat)
    requires Inv(g) && i < |g.slots| && g.slots[i].valid && g.slots[i].completed && Live(g, g.slots[i].fd)
    requires var s := g.sessions[g.slots[i].fd]; g.slots[i].seqNo == s.expected && |s.ring| < DEPTH - 1
    ensures Kept(g, FlushSlot(g, i))
  {
    var t, h := g.slots[i], FlushSlot(g, i);
    var s, reply := g.sessions[t.fd], Meaning(t.cmd, t.code, t.resp);
    var a := Answer(t.fd, t.seqNo, RingAsync, []);
    assert OkTask(g, i);
    assert OkSession(g, t.fd);
    RingAsyncSession(s, g.issued, g.log, a, reply);
    assert h.sessions[t.fd] == Enqueue(s, s.expected, reply, Readable(s)).(expected := Inc32(s.expected));
    ReleasedConserved(g, h, i, a);
    RingAsyncSound(g, i, h);
    ReleasedOk(g, i, h);
    LocalKept(g, h, t.fd, i);
  }

  /** The slot of a released task. */
  lemma ReleasedOk(g: Gateway, i: nat, h: Gateway)
    requires i < |g.slots| == |h.slots| && h.slots[i] == Freed(g.slots[i]) && Delivered(h, g.slots[i])
    ensures OkTask(h, i) && TaskKept(g, h, i)
  {
  }

  lemma FlushSlotKept(g: Gateway, i: nat)
    requires Inv(g) && i < |g.slots|
    ensures Kept(g, FlushSlot(g, i))
  {
    var t := g.slots[i];
    GrowsRefl(g);
    if t.valid && t.completed {
      if !Live(g, t.fd) {
        DroppedKept(g, i);
      } else if t.seqNo == g.sessions[t.fd].expected {
        if |g.sessions[t.fd].ring| == DEPTH - 1 {
          BusyKept(g, i);
        } else {
          RingAsyncKept(g, i);
        }
      }
    }
  }

  /** One slot further. */
  lemma FlushNextKept(g: Gateway, p: Gateway, i: nat, h: Gateway)
    requires Kept(g, p) && i < |p.slots| && h == FlushSlot(p, i)
    ensures Kept(g, h)
  {
    FlushSlotKept(p, i);
    KeptTrans(g, p, h);
  }

  lemma {:induction false} FlushToKept(g: Gateway, n: nat, h: Gateway)
    requires Inv(g) && n <= |g.slots| && h == FlushTo(g, n)
    ensures Kept(g, h)
  {
    if n == 0 {
      KeptRefl(g);
    } else {
      var p := FlushTo(g, n - 1);
      FlushToKept(g, n - 1, p);
      FlushNextKept(g, p, n - 1, h);
    }
  }

  lemma DrainedKept(s: Session, kernel: Kernel)
    requires BytesKept(s) && s.writing
    ensures var t := AfterDrain(s, kernel); BytesKept(t) && SessionGrows(s, t)
  {
    DrainConserves(s.ring, kernel, 0);
    var d := Drain(s.ring, kernel, 0);
    Assoc(s.accepted, d.accepted, Unsent(d.pending));
    if PartlySent(s.ring) {
      PartlySentIsStuck(s.ring, kernel, 0);
    }
  }

  lemma WrittenKept(g: Gateway, fd: int, registered: bool, kernel: Kernel, h: Gateway)
    requires Inv(g) && CanWrite(g, fd) && h == WriteHandled(g, fd, registered, kernel)
    ensures Kept(g, h)
  {
    if registered && Live(g, fd) {
      assert OkSession(g, fd);
      DrainedKept(g.sessions[fd], kernel);
      QuietKept(g, h, fd);
    } else {
      GrowsRefl(g);
    }
  }

  lemma WritableKept(g: Gateway, fd: int, registered: bool, kernel: Kernel, h: Gateway)
    requires Inv(g) && h == Writable(g, fd, registered, kernel)
    ensures Kept(g, h)
  {
    if !CanWrite(g, fd) {
      GrowsRefl(g);
    } else {
      var w := WriteHandled(g, fd, registered, kernel);
      WrittenKept(g, fd, registered, kernel, w);
      HangUpBehind(g, w, fd);
    }
  }

  lemma BrokenKept(g: Gateway, fd: int)
    requires Inv(g)
    ensures Kept(g, Broken(g, fd))
  {
    GrowsRefl(g);
    if fd !in g.gone {
      var h := Close(g, fd);
      CloseKept(g, fd);
      HangUpKept(h, fd);
      KeptTrans(g, h, HangUp(h, fd));
    }
  }

  /** Every step keeps the invariant and takes nothing back. */
  lemma ApplyKept(g: Gateway, step: Step)
    requires Inv(g)
    ensures Kept(g, Apply(g, step))
  {
    match step
    case OnReadable(fd, registered, read, env) =>
      ReceiveIs(g, fd, registered, read, env);
      ReceiveKept(g, fd, read, env, Apply(g, step));
    case OnWritable(fd, registered, kernel) => WritableKept(g, fd, registered, kernel, Apply(g, step));
    case OnHangup(fd) => BrokenKept(g, fd);
    case RunBatch(run) => BatchKept(g, run);
    case RunFlush => FlushToKept(g, |g.slots|, Flush(g));
  }

  lemma StartInv(table: seq<Entry>, maxRequest: int)
    ensures Inv(Start(table, maxRequest))
  {
    NoneOutstanding(QUEUE_DEPTH);
  }

  /** So does every run. */
  lemma {:induction false} ExecKept(g: Gateway, steps: seq<Step>)
    requires Inv(g)
    ensures Kept(g, Exec(g, steps))
    decreases |steps|
  {
    if steps == [] {
      GrowsRefl(g);
    } else {
      ApplyKept(g, steps[0]);
      ExecKept(Apply(g, steps[0]), steps[1..]);
      KeptTrans(g, Apply(g, steps[0]), Exec(g, steps));
    }
  }
}
