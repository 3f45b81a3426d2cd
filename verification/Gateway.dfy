// The gateway of one worker as a transition system: the sessions with their sequence counters and
// response rings, and the task slots shared with the background thread. A step is one event of the
// worker's loop, or one body of the background thread under the queue's mutex. The background
// thread may also get the mutex between two frames of one read, which the environment of each frame
// decides. A session carries what epoll reports for its descriptor; an event that epoll cannot report
// does nothing.
//
// Connections are named by a number that is never reused. Histories are kept beside the state: which
// sequence numbers were issued, for what, the one call of a command handler made for each, how each
// was settled, and per session the frames queued and the bytes the kernel took.

module Gateway {
  import opened Bytes
  import opened Responses
  import opened Requests
  import opened Scanner
  import opened Router
  import opened ResponseRing

  const QUEUE_DEPTH := 512
  const BODY_SIZE := 4096

  /** A task slot; a freed slot keeps its other fields. */
  datatype Task = Task(
    valid: bool, completed: bool, fd: int, seqNo: U32, cmd: Byte, params: seq<Byte>,
    code: nat, resp: HandlerData)

  const FREE_TASK := Task(false, false, 0, 0, 0, [], 0, [])

  datatype Queued = Queued(seqNo: U32, reply: Reply)

  datatype Session = Session(
    open: bool,
    next: U32,              // sequence number of the next request
    expected: U32,          // sequence number of the next response to release
    ring: Ring,             // occupied response slots
    writing: bool,          // the descriptor waits for room to write, otherwise for something to read
    late: bool,             // a read event may be on its way, reported before the descriptor was switched
    body: seq<Byte>,        // bytes read and not yet scanned
    asked: seq<Option<Request>>,  // history: what each sequence number was taken for, None for a refusal
    queued: seq<Queued>,    // history: every response ever put into the ring
    accepted: seq<Byte>)    // history: every byte the kernel took from the ring
  {
    const requests := |asked|
  }

  const FRESH := Session(true, 0, 0, [], false, false, [], [], [], [])

  // How a sequence number was settled. Direct: the reply of a command went to the socket as a whole.
  // Failed: it did not and could not be queued, an error frame was sent after it. Refused: an error
  // frame that does not advance the expected number. RingSync, RingAsync: put into the ring by the
  // reader or by the flush. Busy: answered BUSY by the flush. Dropped: the session was gone.
  datatype How = Direct | Failed | Refused | RingSync | RingAsync | Busy | Dropped

  /** A settled number, and the frames that were handed to the socket for it past the ring. */
  datatype Answer = Answer(fd: int, seqNo: U32, how: How, direct: seq<Reply>)
  datatype Id = Id(fd: int, seqNo: U32)

  /** A call of a command handler: what it was given and what came out. */
  datatype Call = Call(request: Request, outcome: HandlerOutcome)

  /** The response a call stands for. */
  function ReplyOf(c: Call): Reply { Meaning(c.request.cmd, ErrorOf(c.outcome.ret), c.outcome.data) }

  datatype Gateway = Gateway(
    table: seq<Entry>, maxRequest: int,
    slots: seq<Task>,
    sessions: map<int, Session>,  // the session list, with the sessions that have left it
    gone: set<int>,               // connections whose descriptor the event loop has closed
    issued: seq<Id>, log: seq<Answer>, ran: map<Id, Call>)

  function Start(table: seq<Entry>, maxRequest: int): Gateway {
    Gateway(table, maxRequest, seq(QUEUE_DEPTH, _ => FREE_TASK), map[], {}, [], [], map[])
  }

  /** The session is on the list. */
  predicate Live(g: Gateway, fd: int) { fd in g.sessions && g.sessions[fd].open }

  /** A read event of the session can come. */
  predicate Readable(s: Session) { !s.writing || s.late }

  /** The event loop can have a read or a write event for the descriptor. */
  predicate CanRead(g: Gateway, fd: int) {
    fd !in g.gone && (fd in g.sessions ==> g.sessions[fd].open && Readable(g.sessions[fd]))
  }

  predicate CanWrite(g: Gateway, fd: int) { fd !in g.gone && (Live(g, fd) ==> g.sessions[fd].writing) }

  /** The session is on the list and its descriptor is open. */
  predicate Serving(g: Gateway, fd: int) { Live(g, fd) && fd !in g.gone }

  // How a direct send ended: whole frame sent, socket full, or anything else.
  datatype SendOutcome = SentAll | SendWouldBlock | SendFailed

  type Outcomes = nat -> HandlerOutcome

  /** The foreign part of handling one frame: a batch of the background thread before it, if there is
      one, the handler's outcome and the socket's. A second batch would find nothing to do. */
  datatype Env = Env(batch: Option<Outcomes>, send: SendOutcome, outcome: HandlerOutcome)

  // --- Building blocks ---

  /** The next sequence number of a session is taken, for a request or for a refusal. */
  function Issue(g: Gateway, fd: int, what: Option<Request>): Gateway
    requires fd in g.sessions
  {
    var s := g.sessions[fd];
    g.(sessions := g.sessions[fd := s.(next := Inc32(s.next), asked := s.asked + [what])],
       issued := g.issued + [Id(fd, s.next)])
  }

  function Log(g: Gateway, fd: int, seqNo: U32, how: How, direct: seq<Reply>): Gateway {
    g.(log := g.log + [Answer(fd, seqNo, how, direct)])
  }

  /** The handler was called for a request. */
  function Note(g: Gateway, fd: int, seqNo: U32, c: Call): Gateway {
    g.(ran := g.ran[Id(fd, seqNo) := c])
  }

  /** A response enters a ring that is not full, and the descriptor is switched to writing; late tells
      whether a read event may still come. */
  function Enqueue(s: Session, seqNo: U32, reply: Reply, late: bool): Session
    requires |s.ring| < DEPTH - 1
  {
    UnsentAppend(s.ring, Wire(reply));
    s.(ring := s.ring + [RespSlot(Wire(reply), 0)], writing := true, late := late,
       queued := s.queued + [Queued(seqNo, reply)])
  }

  function Put(g: Gateway, fd: int, seqNo: U32, reply: Reply, late: bool): Gateway
    requires fd in g.sessions && |g.sessions[fd].ring| < DEPTH - 1
  {
    g.(sessions := g.sessions[fd := Enqueue(g.sessions[fd], seqNo, reply, late)])
  }

  function Expect(g: Gateway, fd: int, n: U32): Gateway
    requires fd in g.sessions
  {
    g.(sessions := g.sessions[fd := g.sessions[fd].(expected := n)])
  }

  // --- The reader ---

  /** A frame start that is answered F4: it takes a sequence number and advances nothing. */
  function BadFrame(g: Gateway, fd: int): Gateway {
    if !Live(g, fd) then g else Log(Issue(g, fd, None), fd, g.sessions[fd].next, Refused, [CHECKSUM_REPLY])
  }

  /** The first free task slot, or their number when there is none. */
  function FirstFree(slots: seq<Task>): (i: nat)
    ensures i <= |slots| && (i < |slots| ==> !slots[i].valid)
    ensures forall k :: 0 <= k < i ==> slots[k].valid
  {
    if slots == [] || !slots[0].valid then 0
    else
      var i := FirstFree(slots[1..]);
      assert forall k :: 0 < k < |slots| ==> slots[k] == slots[1..][k - 1];
      i + 1
  }

  function Submitted(t: Task, fd: int, seqNo: U32, r: Request): Task {
    t.(valid := true, completed := false, fd := fd, seqNo := seqNo, cmd := r.cmd, params := r.payload)
  }

  /** The request is filed in slot i. */
  function File(g: Gateway, i: nat, fd: int, seqNo: U32, r: Request): Gateway
    requires i < |g.slots|
  {
    g.(slots := g.slots[i := Submitted(g.slots[i], fd, seqNo, r)])
  }

  predicate GoesAsync(g: Gateway, r: Request) {
    var e := FirstMatch(g.table, r.cmd);
    e.Some? && e.value.blocking && FirstFree(g.slots) < |g.slots|
  }

  /** A synchronous reply: sent directly, or queued when the socket is full and the ring is not; when
      neither works, an error frame is sent after it. */
  function SyncReply(g: Gateway, fd: int, seqNo: U32, reply: Reply, send: SendOutcome): Gateway
    requires fd in g.sessions
  {
    var h :=
      if send.SentAll? then Log(g, fd, seqNo, Direct, [reply])
      else if send.SendWouldBlock? && |g.sessions[fd].ring| < DEPTH - 1 then
        Log(Put(g, fd, seqNo, reply, false), fd, seqNo, RingSync, [reply])
      else Log(g, fd, seqNo, Failed, [reply, Failure(reply.cmd, ERR_INTERNAL)]);
    Expect(h, fd, Inc32(seqNo))
  }

  /** The error frame for a request that the router rejects. */
  function Refusal(table: seq<Entry>, cmd: Byte): Reply {
    Failure(cmd, if FirstMatch(table, cmd).Some? then ERR_INTERNAL else ERR_UNKNOWN_CMD)
  }

  /** A request answered on the spot, by its command or by an error. */
  function Answered(g: Gateway, fd: int, seqNo: U32, r: Request, env: Env): Gateway
    requires fd in g.sessions
  {
    match Process(g.table, r.cmd, r.payload, env.outcome)
    case Rejected(_) => Log(g, fd, seqNo, Refused, [Refusal(g.table, r.cmd)])
    case Replied(reply) => SyncReply(Note(g, fd, seqNo, Call(r, env.outcome)), fd, seqNo, reply, env.send)
  }

  /** A valid frame: a blocking command is submitted, anything else is answered on the spot. */
  function GoodFrame(g: Gateway, fd: int, r: Request, env: Env): Gateway {
    if !Live(g, fd) then g
    else
      var seqNo, g1 := g.sessions[fd].next, Issue(g, fd, Some(r));
      if GoesAsync(g, r) then File(g1, FirstFree(g.slots), fd, seqNo, r)
      else Answered(g1, fd, seqNo, r, env)
  }

  // --- The background thread ---

  predicate Pending(t: Task) { t.valid && !t.completed }

  function Finished(t: Task, o: HandlerOutcome): Task {
    t.(completed := true, code := ErrorOf(o.ret), resp := o.data)
  }

  /** The calls made so far, with those for the waiting tasks in the first n slots. */
  function CallsAfter(slots: seq<Task>, ran: map<Id, Call>, run: Outcomes, n: nat): map<Id, Call>
    requires n <= |slots|
  {
    if n == 0 then ran
    else
      var t, m := slots[n - 1], CallsAfter(slots, ran, run, n - 1);
      if Pending(t) then m[Id(t.fd, t.seqNo) := Call(Request(t.cmd, t.params), run(n - 1))] else m
  }

  /** The background thread runs every task that is waiting; run(i) is the outcome in slot i. */
  function Batch(g: Gateway, run: Outcomes): Gateway {
    g.(slots := seq(|g.slots|, i requires 0 <= i < |g.slots| =>
         if Pending(g.slots[i]) then Finished(g.slots[i], run(i)) else g.slots[i]),
       ran := CallsAfter(g.slots, g.ran, run, |g.slots|))
  }

  function Meanwhile(g: Gateway, batch: Option<Outcomes>): Gateway {
    if batch.Some? then Batch(g, batch.value) else g
  }

  // --- The scan ---

  predicate EventIn(b: seq<Byte>, e: Event) { e.Dispatch? ==> e.size >= 4 && e.at + e.size <= |b| }

  predicate AllIn(b: seq<Byte>, es: seq<Event>) { forall i :: 0 <= i < |es| ==> EventIn(b, es[i]) }

  /** One event of a scan, behind what the background thread did in the meantime. */
  function OneEvent(g: Gateway, fd: int, b: seq<Byte>, e: Event, env: Env): Gateway
    requires EventIn(b, e)
  {
    var g0 := Meanwhile(g, env.batch);
    if e.Refuse? then BadFrame(g0, fd) else GoodFrame(g0, fd, Parsed(b[e.at..e.at + e.size]), env)
  }

  /** The scan events handled in order; the k-th event meets the k-th environment. */
  function Events(g: Gateway, fd: int, b: seq<Byte>, es: seq<Event>, env: nat -> Env): Gateway
    requires AllIn(b, es)
    decreases |es|
  {
    if es == [] then g
    else
      var n := |es| - 1;
      OneEvent(Events(g, fd, b, es[..n], env), fd, b, es[n], env(n))
  }

  lemma EventsSnoc(g: Gateway, fd: int, b: seq<Byte>, es: seq<Event>, e: Event, env: nat -> Env)
    requires AllIn(b, es) && EventIn(b, e)
    ensures AllIn(b, es + [e])
    ensures Events(g, fd, b, es + [e], env) == OneEvent(Events(g, fd, b, es, env), fd, b, e, env(|es|))
  {
    assert (es + [e])[..|es|] == es;
  }

  /** The session leaves the list. */
  function Close(g: Gateway, fd: int): Gateway {
    if fd in g.sessions then g.(sessions := g.sessions[fd := g.sessions[fd].(open := false)]) else g
  }

  /** The event loop closes a descriptor, after a handler that returned a negative value. */
  function HangUp(g: Gateway, fd: int): Gateway { g.(gone := g.gone + {fd}) }

  function SetBody(g: Gateway, fd: int, body: seq<Byte>): Gateway
    requires fd in g.sessions
  {
    g.(sessions := g.sessions[fd := g.sessions[fd].(body := body)])
  }

  /** A read event has come; the first one creates the session. */
  function Opened(g: Gateway, fd: int): (h: Gateway)
    ensures fd in h.sessions
  {
    g.(sessions := g.sessions[fd := if fd in g.sessions then g.sessions[fd].(late := false) else FRESH])
  }

  // What a read answers; no data means that the peer closed.
  datatype ReadOutcome = Data(bytes: seq<Byte>) | ReadWouldBlock | ReadError

  lemma {:induction false} ScanEventsIn(b: seq<Byte>, pos: nat)
    requires pos <= |b|
    ensures AllIn(b, Scan(b, pos).events)
    decreases |b| - pos
  {
    if pos < |b| {
      if HeadAt(b, pos) {
        ScanAtHead(b, pos);
        ScanEventsIn(b, EndOf(EventAt(b, pos)));
      } else {
        ScanElsewhere(b, pos);
        ScanEventsIn(b, pos + 1);
      }
    }
  }

  /** Fresh bytes: scan, handle every event, keep what the scan left, close on an overlong body. */
  function Scanned(g: Gateway, fd: int, b: seq<Byte>, env: nat -> Env): Gateway
    requires fd in g.sessions
  {
    var f := Scan(b, 0);
    ScanEventsIn(b, 0);
    var g1 := Events(g, fd, b, f.events, env);
    EventsKeepSessions(g, fd, b, f.events, env);
    var g2 := SetBody(g1, fd, b[f.stop..]);
    if |b[f.stop..]| >= g.maxRequest then Close(g2, fd) else g2
  }

  lemma {:induction false} EventsKeepSessions(g: Gateway, fd: int, b: seq<Byte>, es: seq<Event>, env: nat -> Env)
    requires AllIn(b, es)
    ensures Events(g, fd, b, es, env).sessions.Keys == g.sessions.Keys
    decreases |es|
  {
    if es != [] {
      var n := |es| - 1;
      EventsKeepSessions(g, fd, b, es[..n], env);
      OneEventKeepsSessions(Events(g, fd, b, es[..n], env), fd, b, es[n], env(n));
    }
  }

  lemma OneEventKeepsSessions(g: Gateway, fd: int, b: seq<Byte>, e: Event, env: Env)
    requires EventIn(b, e)
    ensures OneEvent(g, fd, b, e, env).sessions.Keys == g.sessions.Keys
  {
  }

  /** What a read hands to the scan: what was left over, then what came in, as far as it fits. */
  function ReadIn(g: Gateway, fd: int, bytes: seq<Byte>): seq<Byte>
    requires fd in g.sessions
  {
    var body := g.sessions[fd].body;
    body + bytes[..Min(|bytes|, Room(body))]
  }

  function Room(body: seq<Byte>): nat { if |body| <= BODY_SIZE then BODY_SIZE - |body| else 0 }

  /** A read on a session of the list, of at most as many bytes as the buffer has room for. */
  function ReadOpen(g: Gateway, fd: int, read: ReadOutcome, env: nat -> Env): Gateway
    requires fd in g.sessions
  {
    match read
    case ReadWouldBlock => g
    case ReadError => Close(g, fd)
    case Data(bytes) =>
      if bytes == [] || Room(g.sessions[fd].body) == 0 then Close(g, fd)
      else Scanned(g, fd, ReadIn(g, fd, bytes), env)
  }

  /** The reader returns a negative value: also when there was nothing to read. */
  predicate ReadFails(g: Gateway, fd: int, read: ReadOutcome)
    requires fd in g.sessions
  {
    match read
    case ReadWouldBlock => true
    case ReadError => true
    case Data(bytes) =>
      || bytes == [] || Room(g.sessions[fd].body) == 0
      || (var b := ReadIn(g, fd, bytes); |b[Scan(b, 0).stop..]| >= g.maxRequest)
  }

  /** The reader: the first read creates the session, unless the scheduler does not know the
      connection. */
  function ReadHandled(g: Gateway, fd: int, registered: bool, read: ReadOutcome, env: nat -> Env): Gateway {
    if fd !in g.sessions && !registered then g else ReadOpen(Opened(g, fd), fd, read, env)
  }

  predicate ReadHandlerFails(g: Gateway, fd: int, registered: bool, read: ReadOutcome) {
    (fd !in g.sessions && !registered) || ReadFails(Opened(g, fd), fd, read)
  }

  /** The socket is readable; when the reader fails, the event loop closes the descriptor. */
  function Receive(g: Gateway, fd: int, registered: bool, read: ReadOutcome, env: nat -> Env): Gateway {
    if !CanRead(g, fd) then g
    else
      var h := ReadHandled(g, fd, registered, read, env);
      if ReadHandlerFails(g, fd, registered, read) then HangUp(h, fd) else h
  }

  // --- The flush ---

  function Freed(t: Task): Task { t.(valid := false, completed := false) }

  /** Slot i is emptied and its task answered. */
  function Release(g: Gateway, i: nat, how: How, direct: seq<Reply>): Gateway
    requires i < |g.slots|
  {
    var t := g.slots[i];
    Log(g.(slots := g.slots[i := Freed(t)]), t.fd, t.seqNo, how, direct)
  }

  /** The flush at one slot: only the task whose turn it is leaves, into the ring or as BUSY. */
  function FlushSlot(g: Gateway, i: nat): Gateway
    requires i < |g.slots|
  {
    var t := g.slots[i];
    if !t.valid || !t.completed then g
    else if !Live(g, t.fd) then Release(g, i, Dropped, [])
    else
      var s := g.sessions[t.fd];
      if t.seqNo != s.expected then g
      else if |s.ring| == DEPTH - 1 then Expect(Release(g, i, Busy, [Failure(t.cmd, ERR_BUS_BUSY)]), t.fd, Inc32(t.seqNo))
      else
        var reply := Meaning(t.cmd, t.code, t.resp);
        Expect(Release(Put(g, t.fd, t.seqNo, reply, Readable(s)), i, RingAsync, []), t.fd, Inc32(s.expected))
  }

  /** The first n slots of a flush pass. */
  function FlushTo(g: Gateway, n: nat): (h: Gateway)
    requires n <= |g.slots|
    ensures |h.slots| == |g.slots|
  {
    if n == 0 then g else FlushSlot(FlushTo(g, n - 1), n - 1)
  }

  function Flush(g: Gateway): Gateway { FlushTo(g, |g.slots|) }

  // --- The writer ---

  /** A session after its ring was drained; a call that empties the ring switches back to reading. */
  function AfterDrain(s: Session, kernel: Kernel): Session {
    DrainConserves(s.ring, kernel, 0);
    var d := Drain(s.ring, kernel, 0);
    s.(ring := d.pending, writing := s.writing && (d.fatal || d.pending != []), accepted := s.accepted + d.accepted)
  }

  /** A session after a write event that went well: the bytes that were read and not yet scanned are
      forgotten, and the descriptor waits for something to read again, whatever is left in the ring. */
  function AfterWrite(s: Session, kernel: Kernel): Session {
    AfterDrain(s, kernel).(body := [], writing := false, late := false)
  }

  predicate Survives(s: Session, kernel: Kernel) {
    var d := Drain(s.ring, kernel, 0);
    d.sentAny && !d.fatal
  }

  /** The writer: a call that sent nothing or failed takes the session off the list. The first event of a
      connection registers it and does nothing else. */
  function WriteHandled(g: Gateway, fd: int, registered: bool, kernel: Kernel): Gateway {
    if !registered || !Live(g, fd) then g
    else
      var s := g.sessions[fd];
      var t := if Survives(s, kernel) then AfterWrite(s, kernel) else AfterDrain(s, kernel).(open := false);
      g.(sessions := g.sessions[fd := t])
  }

  predicate WriteHandlerFails(g: Gateway, fd: int, registered: bool, kernel: Kernel) {
    registered && (Live(g, fd) ==> !Survives(g.sessions[fd], kernel))
  }

  /** The socket is writable; when the writer fails, the event loop closes the descriptor. */
  function Writable(g: Gateway, fd: int, registered: bool, kernel: Kernel): Gateway {
    if !CanWrite(g, fd) then g
    else
      var h := WriteHandled(g, fd, registered, kernel);
      if WriteHandlerFails(g, fd, registered, kernel) then HangUp(h, fd) else h
  }

  /** The socket reports an error or a hangup. */
  function Broken(g: Gateway, fd: int): Gateway {
    if fd in g.gone then g else HangUp(Close(g, fd), fd)
  }

  // --- Runs ---

  datatype Step =
    | OnReadable(fd: int, registered: bool, read: ReadOutcome, env: nat -> Env)
    | OnWritable(fd: int, registered: bool, kernel: Kernel)
    | OnHangup(fd: int)
    | RunBatch(run: Outcomes)
    | RunFlush

  function Apply(g: Gateway, step: Step): Gateway {
    match step
    case OnReadable(fd, registered, read, env) => Receive(g, fd, registered, read, env)
    case OnWritable(fd, registered, kernel) => Writable(g, fd, registered, kernel)
    case OnHangup(fd) => Broken(g, fd)
    case RunBatch(run) => Batch(g, run)
    case RunFlush => Flush(g)
  }

  function Exec(g: Gateway, steps: seq<Step>): Gateway
    decreases |steps|
  {
    if steps == [] then g else Exec(Apply(g, steps[0]), steps[1..])
  }
}
