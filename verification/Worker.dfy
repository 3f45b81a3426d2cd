// The worker thread: the session table, the task slots it shares with the background thread, and
// the read, write, submit, batch and flush functions that update them in place. Each is proved
// against the step of the transition system it performs.

module Worker {
  import opened Seqs
  import opened Bytes
  import opened Requests
  import opened Responses
  import opened Scanner
  import opened ResponseRing
  import opened Router
  import opened Gateway
  import opened Sessions

  /** A response frame built in a scratch buffer. */
  method BuildFrame(cmd: Byte, err: nat, data: HandlerData) returns (frame: seq<Byte>)
    ensures frame == Wire(Meaning(cmd, err, data))
  {
    var buf := new Byte[256];
    var len := BuildResponse(cmd, err, data, buf);
    frame := buf[..len];
  }

  /** Whether a whole frame with a good checksum starts at pos of the first n bytes, and if so what it
      asks for. */
  method CheckFrame(buf: array<Byte>, n: nat, pos: nat) returns (good: bool, frameLen: nat, r: Request)
    requires n <= buf.Length && HeadAt(buf[..n], pos)
    ensures var b := buf[..n];
            && frameLen == FrameSize(b[pos + 1])
            && (good <==> FrameAt(b, pos)) && (good ==> r == Parsed(b[pos..pos + frameLen]))
  {
    ghost var b := buf[..n];
    FrameAtIff(b, pos);
    frameLen := FrameSize(buf[pos + 1]);
    good, r := false, Request(0, []);
    if pos + frameLen <= n {
      SliceOfTake(buf[..], n, pos, pos + frameLen);
      assert buf[..][..n] == b && buf[..][pos..pos + frameLen] == buf[pos..pos + frameLen];
      var c := CalcChecksum(buf, pos, frameLen);
      if c == buf[pos + frameLen - 1] {
        SliceOfTake(buf[..], n, pos + 3, pos + frameLen - 1);
        ParsedAt(b, pos, frameLen);
        good := true;
        r := Request(buf[pos + 2], buf[pos + 3..pos + frameLen - 1]);
      }
    }
  }

  lemma FirstFreeIs(slots: seq<Task>, i: nat)
    requires i <= |slots| && (i < |slots| ==> !slots[i].valid) && forall j :: 0 <= j < i ==> slots[j].valid
    ensures FirstFree(slots) == i
  {
  }

  /** The slots after a batch, one by one. */
  lemma BatchSlots(g: Gateway, run: Outcomes, after: seq<Task>)
    requires |after| == |g.slots|
    requires forall j :: 0 <= j < |after| ==>
               after[j] == if Pending(g.slots[j]) then Finished(g.slots[j], run(j)) else g.slots[j]
    ensures Batch(g, run).slots == after
  {
  }

  /** The writer in two steps: the ring is drained, then the session goes on or leaves the list. */
  lemma WriteInSteps(g: Gateway, fd: int, kernel: Kernel, h: Gateway)
    requires Live(g, fd)
    requires var s := g.sessions[fd];
             h == g.(sessions := g.sessions[fd := if Survives(s, kernel) then AfterWrite(s, kernel) else AfterDrain(s, kernel)])
    ensures WriteHandled(g, fd, true, kernel) == if Survives(g.sessions[fd], kernel) then h else Close(h, fd)
  {
  }

  /** A read of n bytes, which is all that fit of what came. */
  lemma ReadIs(g: Gateway, fd: int, bytes: seq<Byte>, n: nat, env: nat -> Env)
    requires fd in g.sessions && |g.sessions[fd].body| <= BODY_SIZE
    requires n == Min(|bytes|, BODY_SIZE - |g.sessions[fd].body|)
    ensures var b := g.sessions[fd].body + bytes[..n];
            && ReadOpen(g, fd, Data(bytes), env) == (if n == 0 then Close(g, fd) else Scanned(g, fd, b, env))
            && (ReadFails(g, fd, Data(bytes)) <==> n == 0 || |b[Scan(b, 0).stop..]| >= g.maxRequest)
  {
  }

  /** The event loop behind the write handler. */
  lemma WritableIs(g: Gateway, fd: int, registered: bool, kernel: Kernel, h: Gateway)
    requires CanWrite(g, fd) && h == WriteHandled(g, fd, registered, kernel)
    ensures Writable(g, fd, registered, kernel)
         == if WriteHandlerFails(g, fd, registered, kernel) then HangUp(h, fd) else h
  {
  }

  /** Byte strings that are the frames of these responses. */
  predicate AreFrames(frames: seq<seq<Byte>>, replies: seq<Reply>) {
    |frames| == |replies| && forall i :: 0 <= i < |frames| ==> frames[i] == Wire(replies[i])
  }

  lemma OneMoreFrame(frames: seq<seq<Byte>>, frame: seq<Byte>, replies: seq<Reply>)
    requires |replies| == |frames| + 1 && AreFrames(frames, replies[..|frames|]) && frame == Wire(replies[|frames|])
    ensures AreFrames(frames + [frame], replies)
  {
    var n, more := |frames|, frames + [frame];
    forall i | 0 <= i < |more| ensures more[i] == Wire(replies[i]) {
      if i < n {
        assert replies[..n][i] == replies[i] && more[i] == frames[i];
      } else {
        assert more[n] == frame;
      }
    }
  }

  /** The event at a position that carries a head: a request or a refusal. */
  lemma EventHere(g: Gateway, fd: int, b: seq<Byte>, pos: nat, env: Env, h: Gateway, next: nat)
    requires HeadAt(b, pos)
    requires next == if FrameAt(b, pos) then pos + FrameSize(b[pos + 1]) else pos + 1
    requires var g0 := Meanwhile(g, env.batch);
             h == if FrameAt(b, pos) then GoodFrame(g0, fd, Parsed(b[pos..next]), env) else BadFrame(g0, fd)
    ensures var e := EventAt(b, pos);
            EventIn(b, e) && next == EndOf(e) && h == OneEvent(g, fd, b, e, env)
  {
  }

  /** After the events of a scan and the move of what it left. */
  lemma ScannedIs(g: Gateway, fd: int, b: seq<Byte>, env: nat -> Env, h: Gateway)
    requires fd in g.sessions && AllIn(b, Scan(b, 0).events) && fd in Events(g, fd, b, Scan(b, 0).events, env).sessions
    requires h == SetBody(Events(g, fd, b, Scan(b, 0).events, env), fd, b[Scan(b, 0).stop..])
    ensures Scanned(g, fd, b, env) == if |b[Scan(b, 0).stop..]| >= g.maxRequest then Close(h, fd) else h
  {
  }

  /** The scan of b from state g has come to pos and handled these events, which led to state m. */
  ghost predicate ScanAt(g: Gateway, fd: int, b: seq<Byte>, env: nat -> Env, done: seq<Event>, pos: nat, m: Gateway) {
    pos <= |b| && ScanSplit(b, done, pos) && AllIn(b, done) && m == Events(g, fd, b, done, env)
  }

  lemma ScanOneEvent(g: Gateway, fd: int, b: seq<Byte>, env: nat -> Env, done: seq<Event>, pos: nat, m: Gateway, m': Gateway)
    requires ScanAt(g, fd, b, env, done, pos, m) && HeadAt(b, pos) && EventIn(b, EventAt(b, pos))
    requires m' == OneEvent(m, fd, b, EventAt(b, pos), env(|done|))
    ensures ScanAt(g, fd, b, env, done + [EventAt(b, pos)], EndOf(EventAt(b, pos)), m')
  {
    SplitEvent(b, done, pos);
    EventsSnoc(g, fd, b, done, EventAt(b, pos), env);
  }

  class Worker {
    const tasks: array<Task>
    const table: CommandTable
    const maxRequest: int
    var sessions: map<int, ClientSession>

    ghost var model: Gateway     // the abstract state these fields stand for, with its histories
    ghost var queueOwner: map<array<RespSlot>, int>
    ghost var bodyOwner: map<array<Byte>, int>

    ghost function Queues(): set<array<RespSlot>>
      reads this
    {
      set s | s in sessions.Values :: s.queue
    }

    /** The session object, its buffer and its queue belong to this connection and no other. */
    ghost predicate Owned(fd: int)
      reads this
      requires fd in sessions
    {
      var cs := sessions[fd];
      cs.socket == fd && cs.queue in queueOwner && queueOwner[cs.queue] == fd
      && cs.body in bodyOwner && bodyOwner[cs.body] == fd
    }

    /** The fields of a connection's session are those of the abstract session. */
    ghost predicate Mirrored(fd: int)
      reads this, sessions.Values, Queues()
      requires fd in sessions
    {
      sessions[fd].Valid() && Live(model, fd) && model.sessions[fd] == sessions[fd].Abs()
    }

    ghost predicate Bound(fd: int)
      reads this, sessions.Values, Queues()
      requires fd in sessions
    {
      Owned(fd) && Mirrored(fd)
    }

    ghost predicate Valid()
      reads this, table, table.slots, tasks, sessions.Values, Queues()
    {
      && tasks.Length == QUEUE_DEPTH && model.slots == tasks[..]
      && table.Valid() && model.table == table.Entries() && model.maxRequest == maxRequest
      && (forall fd :: fd in sessions ==> Bound(fd))
      && (forall fd :: Live(model, fd) ==> fd in sessions)
    }

    constructor (commands: CommandTable, maxRequest: int)
      requires commands.Valid()
      ensures Valid() && fresh(tasks) && table == commands
      ensures model == Start(commands.Entries(), maxRequest)
    {
      tasks := new Task[QUEUE_DEPTH](_ => FREE_TASK);
      table := commands;
      this.maxRequest := maxRequest;
      sessions, queueOwner, bodyOwner := map[], map[], map[];
      model := Start(commands.Entries(), maxRequest);
      new;
      assert tasks[..] == model.slots;
    }

    // --- Parts of a step ---

    method SetExpected(fd: int, cs: ClientSession, n: U32)
      requires Valid() && fd in sessions && sessions[fd] == cs
      modifies this`model, cs`expected
      ensures Valid() && fd in old(model).sessions && model == Expect(old(model), fd, n)
    {
      assert Bound(fd);
      cs.expected := n;
      model := Expect(model, fd, n);
      forall k | k in sessions ensures Bound(k) {
        assert old(Bound(k));
      }
    }

    /** A response frame enters the ring of a session. */
    method PutReply(fd: int, cs: ClientSession, frame: seq<Byte>, ghost seqNo: U32, ghost reply: Reply, ghost late: bool)
      requires Valid() && fd in sessions && sessions[fd] == cs && |cs.Pending()| < DEPTH - 1 && frame == Wire(reply)
      modifies this`model, cs`qTail, cs`queued, cs`writing, cs`late, cs.queue
      ensures Valid() && fd in old(model).sessions && |old(model).sessions[fd].ring| < DEPTH - 1
      ensures model == Put(old(model), fd, seqNo, reply, late)
    {
      assert Bound(fd);
      cs.PutResponse(frame, seqNo, reply, late);
      model := Put(model, fd, seqNo, reply, late);
      forall k | k in sessions ensures Bound(k) {
        assert old(Bound(k));
        assert k != fd ==> unchanged(sessions[k]) && unchanged(sessions[k].queue);
      }
    }

    /** A number is settled; the frames are those handed to the socket for it past the ring. */
    method Settle(fd: int, seqNo: U32, ghost how: How, frames: seq<seq<Byte>>, ghost replies: seq<Reply>)
      requires Valid() && AreFrames(frames, replies)
      modifies this`model
      ensures Valid() && model == Log(old(model), fd, seqNo, how, replies)
    {
      model := Log(model, fd, seqNo, how, replies);
      forall k | k in sessions ensures Bound(k) {
        assert old(Bound(k));
      }
    }

    /** Empties slot i and settles its number. */
    method ReleaseTask(i: nat, ghost how: How, frames: seq<seq<Byte>>, ghost replies: seq<Reply>)
      requires Valid() && i < tasks.Length && AreFrames(frames, replies)
      modifies tasks, this`model
      ensures Valid() && model == Release(old(model), i, how, replies)
    {
      tasks[i] := tasks[i].(valid := false, completed := false);
      model := Release(model, i, how, replies);
      forall k | k in sessions ensures Bound(k) {
        assert old(Bound(k));
      }
    }

    // --- The flush ---

    /** The flush at one slot. */
    method FlushTask(i: nat)
      requires Valid() && i < tasks.Length
      modifies tasks, this`model
      modifies sessions.Values`expected, sessions.Values`qTail, sessions.Values`queued
      modifies sessions.Values`writing, sessions.Values`late, Queues()
      ensures Valid() && model == FlushSlot(old(model), i)
    {
      var t := tasks[i];
      if !t.valid || !t.completed {
        return;
      }
      if t.fd !in sessions {
        ReleaseTask(i, Dropped, [], []);
        return;
      }
      var cs := sessions[t.fd];
      assert Bound(t.fd);
      if t.seqNo != cs.expected {
        return;
      }
      ReleaseExpected(i, cs);
    }

    /** The task in slot i is the one its session expects: its response enters the ring, or it is
        answered BUSY when the ring is full. */
    method ReleaseExpected(i: nat, cs: ClientSession)
      requires Valid() && i < tasks.Length && tasks[i].valid && tasks[i].completed
      requires tasks[i].fd in sessions && sessions[tasks[i].fd] == cs && tasks[i].seqNo == cs.expected
      modifies tasks, this`model, cs`expected, cs`qTail, cs`queued, cs`writing, cs`late, cs.queue
      ensures Valid() && model == FlushSlot(old(model), i)
    {
      assert Bound(tasks[i].fd);
      var full := cs.RingFull();
      if full {
        AnswerBusy(i, cs);
      } else {
        QueueResponse(i, cs);
      }
    }

    method AnswerBusy(i: nat, cs: ClientSession)
      requires Valid() && i < tasks.Length && tasks[i].fd in sessions && sessions[tasks[i].fd] == cs
      modifies tasks, this`model, cs`expected
      ensures Valid()
      ensures var t := old(model).slots[i];
              && t.fd in old(model).sessions
              && model == Expect(Release(old(model), i, Busy, [Failure(t.cmd, ERR_BUS_BUSY)]), t.fd, Inc32(t.seqNo))
    {
      var t := tasks[i];
      assert Bound(t.fd);
      ReleaseBusy(i);
      SetExpected(t.fd, cs, Inc32(t.seqNo));
    }

    method ReleaseBusy(i: nat)
      requires Valid() && i < tasks.Length
      modifies tasks, this`model
      ensures Valid() && model == Release(old(model), i, Busy, [Failure(old(model).slots[i].cmd, ERR_BUS_BUSY)])
    {
      var cmd := tasks[i].cmd;
      var busy := BuildFrame(cmd, ERR_BUS_BUSY, []);
      ReleaseTask(i, Busy, [busy], [Failure(cmd, ERR_BUS_BUSY)]);
    }

    method QueueResponse(i: nat, cs: ClientSession)
      requires Valid() && i < tasks.Length && tasks[i].fd in sessions && sessions[tasks[i].fd] == cs
      requires |cs.Pending()| < DEPTH - 1
      modifies tasks, this`model, cs`expected, cs`qTail, cs`queued, cs`writing, cs`late, cs.queue
      ensures Valid()
      ensures var t := old(model).slots[i];
              && t.fd in old(model).sessions && |old(model).sessions[t.fd].ring| < DEPTH - 1
              && var late := Readable(old(model).sessions[t.fd]);
              && var g := Put(old(model), t.fd, t.seqNo, Meaning(t.cmd, t.code, t.resp), late);
              && g.slots == old(model).slots
              && model == Expect(Release(g, i, RingAsync, []), t.fd, Inc32(old(model).sessions[t.fd].expected))
    {
      var t := tasks[i];
      assert Bound(t.fd);
      PutTask(t, cs);
      ReleaseTask(i, RingAsync, [], []);
      SetExpected(t.fd, cs, Inc32(cs.expected));
    }

    /** The response of a completed task enters the ring. */
    method PutTask(t: Task, cs: ClientSession)
      requires Valid() && t.fd in sessions && sessions[t.fd] == cs && |cs.Pending()| < DEPTH - 1
      modifies this`model, cs`qTail, cs`queued, cs`writing, cs`late, cs.queue
      ensures Valid() && t.fd in old(model).sessions && |old(model).sessions[t.fd].ring| < DEPTH - 1
      ensures var late := Readable(old(model).sessions[t.fd]);
              model == Put(old(model), t.fd, t.seqNo, Meaning(t.cmd, t.code, t.resp), late)
    {
      var frame := BuildFrame(t.cmd, t.code, t.resp);
      PutReply(t.fd, cs, frame, t.seqNo, Meaning(t.cmd, t.code, t.resp), Readable(model.sessions[t.fd]));
    }

    /** A flush pass over all slots. */
    method FlushCompleted()
      requires Valid()
      modifies tasks, this`model
      modifies sessions.Values`expected, sessions.Values`qTail, sessions.Values`queued
      modifies sessions.Values`writing, sessions.Values`late, Queues()
      ensures Valid() && model == Flush(old(model))
    {
      var i := 0;
      while i < QUEUE_DEPTH
        invariant i <= QUEUE_DEPTH && Valid()
        invariant model == FlushTo(old(model), i)
      {
        FlushTask(i);
        i := i + 1;
      }
    }

    // --- The background thread ---

    /** Runs every waiting task; run(i) is the outcome of the handler in slot i. */
    method RunWaiting(run: Outcomes)
      requires Valid()
      modifies tasks, this`model
      ensures Valid() && model == Batch(old(model), run)
    {
      RunTasks(run);
      BatchSlots(model, run, tasks[..]);
      model := Batch(model, run);
      forall k | k in sessions ensures Bound(k) {
        assert old(Bound(k));
      }
    }

    method LetBatchRun(batch: Option<Outcomes>)
      requires Valid()
      modifies tasks, this`model
      ensures Valid() && model == Meanwhile(old(model), batch)
    {
      if batch.Some? {
        RunWaiting(batch.value);
      }
    }

    method RunTasks(run: Outcomes)
      requires tasks.Length == QUEUE_DEPTH
      modifies tasks
      ensures forall j :: 0 <= j < QUEUE_DEPTH ==>
                tasks[j] == old(if Pending(tasks[j]) then Finished(tasks[j], run(j)) else tasks[j])
    {
      var i := 0;
      while i < QUEUE_DEPTH
        invariant i <= QUEUE_DEPTH
        invariant forall j :: 0 <= j < i ==> tasks[j] == old(if Pending(tasks[j]) then Finished(tasks[j], run(j)) else tasks[j])
        invariant forall j :: i <= j < QUEUE_DEPTH ==> tasks[j] == old(tasks[j])
      {
        if tasks[i].valid && !tasks[i].completed {
          var o := run(i);
          tasks[i] := tasks[i].(code := ErrorOf(o.ret), resp := o.data, completed := true);
        }
        i := i + 1;
      }
    }

    // --- Submission ---

    /** The first free slot, or the number of slots when all are taken. */
    method FindFree() returns (i: nat)
      requires tasks.Length == QUEUE_DEPTH
      ensures i == FirstFree(tasks[..])
    {
      i := 0;
      while i < QUEUE_DEPTH && tasks[i].valid
        invariant i <= QUEUE_DEPTH && forall j :: 0 <= j < i ==> tasks[j].valid
      {
        i := i + 1;
      }
      FirstFreeIs(tasks[..], i);
    }

    /** Files a request in the first free slot, if there is one. */
    method SubmitAsync(fd: int, seqNo: U32, r: Request) returns (ok: bool)
      requires Valid()
      modifies tasks, this`model
      ensures Valid() && ok == (FirstFree(old(model).slots) < QUEUE_DEPTH)
      ensures model == if ok then File(old(model), FirstFree(old(model).slots), fd, seqNo, r) else old(model)
    {
      var i := FindFree();
      if i == QUEUE_DEPTH {
        return false;
      }
      FileTask(i, fd, seqNo, r);
      return true;
    }

    method FileTask(i: nat, fd: int, seqNo: U32, r: Request)
      requires Valid() && i < tasks.Length
      modifies tasks, this`model
      ensures Valid() && model == File(old(model), i, fd, seqNo, r)
    {
      tasks[i] := tasks[i].(fd := fd, seqNo := seqNo, cmd := r.cmd, params := r.payload, valid := true, completed := false);
      model := File(model, i, fd, seqNo, r);
      forall k | k in sessions ensures Bound(k) {
        assert old(Bound(k));
      }
    }

    // --- The reader ---

    /** Takes the next sequence number of a session. */
    method TakeSeq(fd: int, cs: ClientSession, ghost what: Option<Request>) returns (seqNo: U32)
      requires Valid() && fd in sessions && sessions[fd] == cs
      modifies this`model, cs`nextReqSeq, cs`asked
      ensures Valid() && fd in old(model).sessions && seqNo == old(model).sessions[fd].next
      ensures model == Issue(old(model), fd, what)
    {
      assert Bound(fd);
      seqNo := cs.nextReqSeq;
      cs.nextReqSeq := Inc32(cs.nextReqSeq);
      cs.asked := cs.asked + [what];
      model := Issue(model, fd, what);
      forall k | k in sessions ensures Bound(k) {
        assert old(Bound(k));
      }
    }

    /** A frame start that is answered F4, straight to the socket. */
    method RefuseFrame(fd: int, cs: ClientSession)
      requires Valid() && fd in sessions && sessions[fd] == cs
      modifies this`model, cs`nextReqSeq, cs`asked
      ensures Valid() && model == BadFrame(old(model), fd)
    {
      assert Bound(fd);
      var seqNo := TakeSeq(fd, cs, None);
      SendError(fd, seqNo, CMD_NONE, ERR_CHECKSUM, Refused, [], [CHECKSUM_REPLY]);
    }

    /** The socket is full and the ring is not. */
    method QueueReply(fd: int, cs: ClientSession, seqNo: U32, frame: seq<Byte>, ghost reply: Reply)
      requires Valid() && fd in sessions && sessions[fd] == cs && |cs.Pending()| < DEPTH - 1 && frame == Wire(reply)
      modifies this`model, cs`qTail, cs`queued, cs`writing, cs`late, cs.queue
      ensures Valid() && fd in old(model).sessions && |old(model).sessions[fd].ring| < DEPTH - 1
      ensures model == Log(Put(old(model), fd, seqNo, reply, false), fd, seqNo, RingSync, [reply])
    {
      PutReply(fd, cs, frame, seqNo, reply, false);
      Settle(fd, seqNo, RingSync, [frame], [reply]);
    }

    /** The reply of a command that ran on the spot: sent directly, else queued; the expected number moves
        in any case, and the result tells whether the request is handled. */
    method ReplyNow(fd: int, cs: ClientSession, seqNo: U32, frame: seq<Byte>, send: SendOutcome, ghost reply: Reply)
      returns (handled: bool)
      requires Valid() && fd in sessions && sessions[fd] == cs && frame == Wire(reply)
      modifies this`model, cs`expected, cs`qTail, cs`queued, cs`writing, cs`late, cs.queue
      ensures Valid() && fd in old(model).sessions
      ensures handled <==> send.SentAll? || (send.SendWouldBlock? && |old(model).sessions[fd].ring| < DEPTH - 1)
      ensures model == if handled then SyncReply(old(model), fd, seqNo, reply, send)
                       else Expect(old(model), fd, Inc32(seqNo))
    {
      assert Bound(fd);
      var full := cs.RingFull();
      handled := false;
      if send.SentAll? {
        handled := true;
        Settle(fd, seqNo, Direct, [frame], [reply]);
      } else if send.SendWouldBlock? && !full {
        QueueReply(fd, cs, seqNo, frame, reply);
        handled := true;
      }
      SetExpected(fd, cs, Inc32(seqNo));
    }

    /** Looks the command up and runs it; what came out is noted when it ran. */
    method RunCommand(fd: int, seqNo: U32, r: Request, o: HandlerOutcome) returns (code: nat, frame: seq<Byte>)
      requires Valid()
      modifies this`model
      ensures Valid()
      ensures match old(Process(model.table, r.cmd, r.payload, o))
              case Rejected(_) => code != ERR_OK && model == old(model)
              case Replied(reply) =>
                code == ERR_OK && frame == Wire(reply) && model == Note(old(model), fd, seqNo, Call(r, o))
    {
      var buf := new Byte[256];
      var len: Byte;
      code, len := table.RouterProcess(r.cmd, r.payload, o, buf);
      frame := buf[..len];
      if code == ERR_OK {
        model := Note(model, fd, seqNo, Call(r, o));
      }
      forall k | k in sessions ensures Bound(k) {
        assert old(Bound(k));
      }
    }

    /** Sends an error frame behind what was sent for the number before, and settles it. */
    method SendError(fd: int, seqNo: U32, cmd: Byte, code: nat, ghost how: How, sent: seq<seq<Byte>>, ghost replies: seq<Reply>)
      requires Valid() && 0 < code < 256 && |replies| == |sent| + 1
      requires AreFrames(sent, replies[..|sent|]) && replies[|sent|] == Failure(cmd, code)
      modifies this`model
      ensures Valid() && model == Log(old(model), fd, seqNo, how, replies)
    {
      var error := BuildFrame(cmd, code, []);
      OneMoreFrame(sent, error, replies);
      Settle(fd, seqNo, how, sent + [error], replies);
    }

    /** A reply that is neither sent nor queued is followed by an error frame. */
    method DeliverNow(fd: int, cs: ClientSession, seqNo: U32, frame: seq<Byte>, send: SendOutcome, cmd: Byte, ghost reply: Reply)
      requires Valid() && fd in sessions && sessions[fd] == cs && frame == Wire(reply) && reply.cmd == cmd
      modifies this`model, cs`expected, cs`qTail, cs`queued, cs`writing, cs`late, cs.queue
      ensures Valid() && fd in old(model).sessions && model == SyncReply(old(model), fd, seqNo, reply, send)
    {
      var handled := ReplyNow(fd, cs, seqNo, frame, send, reply);
      if !handled {
        SendError(fd, seqNo, cmd, ERR_INTERNAL, Failed, [frame], [reply, Failure(cmd, ERR_INTERNAL)]);
      }
    }

    /** The command is run on the spot and its reply sent; what the router rejects is answered with an
        error frame. */
    method AnswerNow(fd: int, cs: ClientSession, seqNo: U32, r: Request, env: Env)
      requires Valid() && fd in sessions && sessions[fd] == cs
      modifies this`model, cs`expected, cs`qTail, cs`queued, cs`writing, cs`late, cs.queue
      ensures Valid() && fd in old(model).sessions && model == Answered(old(model), fd, seqNo, r, env)
    {
      assert Bound(fd);
      var entry := table.Lookup(r.cmd);
      var code, frame := RunCommand(fd, seqNo, r, env.outcome);
      if code == ERR_OK {
        DeliverNow(fd, cs, seqNo, frame, env.send, r.cmd, ReplyOf(Call(r, env.outcome)));
      } else {
        var reason := if entry.Some? then ERR_INTERNAL else ERR_UNKNOWN_CMD;
        SendError(fd, seqNo, r.cmd, reason, Refused, [], [Failure(r.cmd, reason)]);
      }
    }

    /** A valid frame. */
    method HandleFrame(fd: int, cs: ClientSession, r: Request, env: Env)
      requires Valid() && fd in sessions && sessions[fd] == cs
      modifies tasks, this`model
      modifies cs`nextReqSeq, cs`asked, cs`expected, cs`qTail, cs`queued, cs`writing, cs`late, cs.queue
      ensures Valid() && model == GoodFrame(old(model), fd, r, env)
    {
      assert Bound(fd);
      var seqNo := TakeSeq(fd, cs, Some(r));
      ghost var g1 := model;
      var handled := TrySubmit(fd, seqNo, r);
      assert handled <==> GoesAsync(old(model), r);
      if !handled {
        assert model == g1;
        AnswerNow(fd, cs, seqNo, r, env);
      }
    }

    /** Submits the request if its command blocks and a slot is free. */
    method TrySubmit(fd: int, seqNo: U32, r: Request) returns (handled: bool)
      requires Valid()
      modifies tasks, this`model
      ensures Valid() && handled == GoesAsync(old(model), r)
      ensures model == if handled then File(old(model), FirstFree(old(model).slots), fd, seqNo, r) else old(model)
    {
      var entry := table.Lookup(r.cmd);
      handled := false;
      if entry.Some? && entry.value.blocking {
        handled := SubmitAsync(fd, seqNo, r);
      }
    }

    /** A whole frame with a good checksum at pos is dispatched and skipped, anything else is refused and
        only its head is skipped. */
    method HandleHead(fd: int, cs: ClientSession, pos: nat, env: Env) returns (next: nat)
      requires Valid() && fd in sessions && sessions[fd] == cs && cs.bodyLength <= cs.body.Length
      requires HeadAt(cs.body[..cs.bodyLength], pos)
      modifies tasks, this`model
      modifies cs`nextReqSeq, cs`asked, cs`expected, cs`qTail, cs`queued, cs`writing, cs`late, cs.queue
      ensures Valid()
      ensures var b := cs.body[..cs.bodyLength];
              next == (if FrameAt(b, pos) then pos + FrameSize(b[pos + 1]) else pos + 1)
      ensures var b := cs.body[..cs.bodyLength];
              model == if FrameAt(b, pos) then GoodFrame(old(model), fd, Parsed(b[pos..next]), env)
                       else BadFrame(old(model), fd)
    {
      ghost var b := cs.body[..cs.bodyLength];
      var good, frameLen, r := CheckFrame(cs.body, cs.bodyLength, pos);
      next := if good then pos + frameLen else pos + 1;
      assert good ==> r == Parsed(b[pos..next]);
      DispatchOrRefuse(fd, cs, good, r, env);
      assert cs.body[..cs.bodyLength] == b;
    }

    method DispatchOrRefuse(fd: int, cs: ClientSession, good: bool, r: Request, env: Env)
      requires Valid() && fd in sessions && sessions[fd] == cs
      modifies tasks, this`model
      modifies cs`nextReqSeq, cs`asked, cs`expected, cs`qTail, cs`queued, cs`writing, cs`late, cs.queue
      ensures Valid() && model == if good then GoodFrame(old(model), fd, r, env) else BadFrame(old(model), fd)
    {
      if good {
        HandleFrame(fd, cs, r, env);
      } else {
        RefuseFrame(fd, cs);
      }
    }

    /** Handles the frame start at pos; before it, the background thread may have got the mutex. */
    method HandleEvent(fd: int, cs: ClientSession, pos: nat, env: Env) returns (next: nat)
      requires Valid() && fd in sessions && sessions[fd] == cs && cs.bodyLength <= cs.body.Length
      requires HeadAt(cs.body[..cs.bodyLength], pos)
      modifies tasks, this`model
      modifies cs`nextReqSeq, cs`asked, cs`expected, cs`qTail, cs`queued, cs`writing, cs`late, cs.queue
      ensures Valid()
      ensures var b := cs.body[..cs.bodyLength];
              && next == EndOf(EventAt(b, pos)) && EventIn(b, EventAt(b, pos))
              && model == OneEvent(old(model), fd, b, EventAt(b, pos), env)
    {
      ghost var b := cs.body[..cs.bodyLength];
      LetBatchRun(env.batch);
      assert cs.body[..cs.bodyLength] == b;
      next := HandleHead(fd, cs, pos, env);
      assert cs.body[..cs.bodyLength] == b;
      EventHere(old(model), fd, b, pos, env, model, next);
    }

    /** Scans the read buffer and handles every event on the way; the result is where the scan stopped. */
    method ScanBody(fd: int, cs: ClientSession, env: nat -> Env) returns (pos: nat)
      requires Valid() && fd in sessions && sessions[fd] == cs && cs.bodyLength <= cs.body.Length
      modifies tasks, this`model
      modifies cs`nextReqSeq, cs`asked, cs`expected, cs`qTail, cs`queued, cs`writing, cs`late, cs.queue
      ensures Valid()
      ensures var b := cs.body[..cs.bodyLength];
              && pos == Scan(b, 0).stop && AllIn(b, Scan(b, 0).events)
              && model == Events(old(model), fd, b, Scan(b, 0).events, env)
    {
      pos := 0;
      ghost var b, done := cs.body[..cs.bodyLength], [];
      var k := 0;
      while pos < cs.bodyLength
        invariant pos <= cs.bodyLength && Valid() && b == cs.body[..cs.bodyLength] && k == |done|
        invariant ScanAt(old(model), fd, b, env, done, pos, model)
      {
        if cs.body[pos] != HEAD {
          SplitSkip(b, done, pos);
          pos := pos + 1;
        } else if pos + 1 >= cs.bodyLength {
          break;
        } else if cs.body[pos + 1] < 2 || cs.body[pos + 1] > SCANNER_LEN_MAX {
          SplitSkip(b, done, pos);
          pos := pos + 1;
        } else {
          ghost var m, at := model, pos;
          pos := HandleEvent(fd, cs, pos, env(k));
          ScanOneEvent(old(model), fd, b, env, done, at, m, model);
          done := done + [EventAt(b, at)];
          k := k + 1;
        }
      }
      SplitEnd(b, done, pos);
    }

    // --- Sockets ---

    ghost function Bodies(): set<array<Byte>>
      reads this
    {
      set s | s in sessions.Values :: s.body
    }

    /** Between two calls, every read buffer holds what the last read left over. */
    ghost predicate Settled()
      reads this, sessions.Values, Bodies()
    {
      forall fd :: fd in sessions ==> sessions[fd].bodyLength <= sessions[fd].body.Length && sessions[fd].Settled()
    }

    /** Creates the session of a connection that the scheduler knows. */
    method OpenSession(fd: int, registered: bool) returns (cs: ClientSession?)
      requires Valid() && Settled() && fd !in model.sessions
      modifies this`model, this`sessions, this`queueOwner, this`bodyOwner
      ensures Valid() && Settled() && (cs != null <==> registered)
      ensures cs == null ==> model == old(model) && sessions == old(sessions)
      ensures cs != null ==>
                && model == Opened(old(model), fd) && sessions == old(sessions)[fd := cs]
                && fresh(cs) && fresh(cs.body) && fresh(cs.queue)
    {
      if !registered {
        return null;
      }
      cs := new ClientSession(fd);
      Adopt(fd, cs);
    }

    /** A new session object enters the table. */
    method Adopt(fd: int, cs: ClientSession)
      requires Valid() && Settled() && fd !in model.sessions
      requires cs.socket == fd && cs.Valid() && cs.Settled() && cs.Abs() == FRESH
      requires forall k :: k in sessions ==> sessions[k].queue != cs.queue && sessions[k].body != cs.body
      modifies this`model, this`sessions, this`queueOwner, this`bodyOwner
      ensures Valid() && Settled() && model == Opened(old(model), fd)
      ensures sessions == old(sessions)[fd := cs]
    {
      sessions := sessions[fd := cs];
      queueOwner := queueOwner[cs.queue := fd];
      bodyOwner := bodyOwner[cs.body := fd];
      model := Opened(model, fd);
      forall k | k in sessions ensures Bound(k) {
        if k != fd {
          assert old(Bound(k));
        }
      }
    }

    /** The read event that may have been on its way has come. */
    ghost method NoteRead(fd: int, cs: ClientSession)
      requires Valid() && Settled() && fd in sessions && sessions[fd] == cs
      modifies this`model, cs`late
      ensures Valid() && Settled() && model == Opened(old(model), fd)
    {
      assert Bound(fd);
      cs.late := false;
      model := Opened(model, fd);
      forall k | k in sessions ensures Bound(k) {
        assert old(Bound(k));
      }
    }

    /** The session leaves the table. */
    method CloseSession(fd: int)
      requires Valid()
      modifies this`model, this`sessions
      ensures Valid() && model == Close(old(model), fd)
      ensures sessions == old(sessions) - {fd}
    {
      sessions := sessions - {fd};
      model := Close(model, fd);
      forall k | k in sessions ensures Bound(k) {
        assert old(Bound(k));
      }
    }

    /** The event loop closes a descriptor. */
    method CloseDescriptor(fd: int)
      requires Valid()
      modifies this`model
      ensures Valid() && model == HangUp(old(model), fd)
    {
      model := HangUp(model, fd);
      forall k | k in sessions ensures Bound(k) {
        assert old(Bound(k));
      }
    }

    /** The write handler of the event loop: drains the ring; a call that sent nothing or failed takes the
        session off the list, any other forgets the unscanned bytes. */
    method ConnWrite(fd: int, registered: bool, kernel: Kernel) returns (ret: int)
      requires Valid() && Settled()
      modifies this`model, this`sessions
      modifies sessions.Values`qHead, sessions.Values`accepted, sessions.Values`bodyLength, sessions.Values`carry
      modifies sessions.Values`writing, sessions.Values`late, Queues()
      ensures Valid() && Settled() && model == WriteHandled(old(model), fd, registered, kernel)
      ensures ret < 0 <==> WriteHandlerFails(old(model), fd, registered, kernel)
    {
      if !registered {
        return 0;
      }
      if fd !in sessions {
        return -1;
      }
      var survives := WriteOrClose(fd, sessions[fd], kernel);
      return if survives then 0 else -1;
    }

    method WriteOrClose(fd: int, cs: ClientSession, kernel: Kernel) returns (survives: bool)
      requires Valid() && Settled() && fd in sessions && sessions[fd] == cs
      modifies this`model, this`sessions, cs`qHead, cs`accepted, cs`bodyLength, cs`carry, cs`writing, cs`late, cs.queue
      ensures Valid() && Settled() && Live(old(model), fd)
      ensures survives == Survives(old(model).sessions[fd], kernel)
      ensures model == WriteHandled(old(model), fd, true, kernel)
    {
      survives := WriteSession(fd, cs, kernel);
      WriteInSteps(old(model), fd, kernel, model);
      survives := KeepOrClose(fd, survives);
    }

    /** A write event that the event loop can have. */
    method WriteEvent(fd: int, registered: bool, kernel: Kernel)
      requires Valid() && Settled() && CanWrite(model, fd)
      modifies this`model, this`sessions
      modifies sessions.Values`qHead, sessions.Values`accepted, sessions.Values`bodyLength, sessions.Values`carry
      modifies sessions.Values`writing, sessions.Values`late, Queues()
      ensures Valid() && Settled() && model == Writable(old(model), fd, registered, kernel)
    {
      var ret := ConnWrite(fd, registered, kernel);
      WritableIs(old(model), fd, registered, kernel, model);
      if ret < 0 {
        CloseDescriptor(fd);
      }
    }

    /** An error event of an open descriptor: the connection and its session end. */
    method ConnError(fd: int)
      requires Valid() && Settled() && fd !in model.gone
      modifies this`model, this`sessions
      ensures Valid() && Settled() && model == Broken(old(model), fd)
    {
      CloseSession(fd);
      CloseDescriptor(fd);
    }

    method WriteSession(fd: int, cs: ClientSession, kernel: Kernel) returns (survives: bool)
      requires Valid() && Settled() && fd in sessions && sessions[fd] == cs
      modifies this`model, cs`qHead, cs`accepted, cs`bodyLength, cs`carry, cs`writing, cs`late, cs.queue
      ensures Valid() && Settled() && Live(old(model), fd)
      ensures var s := old(model).sessions[fd];
              && survives == Survives(s, kernel)
              && model == var s1 := AfterDrain(s, kernel);
                          old(model).(sessions := old(model).sessions[fd := if survives then AfterWrite(s, kernel) else s1])
    {
      assert Bound(fd);
      survives := cs.WriteEvent(kernel);
      model := model.(sessions := model.sessions[fd := cs.Abs()]);
      forall k | k in sessions ensures Bound(k) && sessions[k].Settled() {
        assert old(Bound(k) && sessions[k].Settled());
        assert k != fd ==> unchanged(sessions[k]) && unchanged(sessions[k].queue);
      }
    }

    /** The read handler of the event loop; the first read on a connection creates its session. */
    method ConnRead(fd: int, registered: bool, read: ReadOutcome, env: nat -> Env) returns (ret: int)
      requires Valid() && Settled() && (fd in sessions || fd !in model.sessions)
      modifies this`model, this`sessions, this`queueOwner, this`bodyOwner, tasks
      modifies sessions.Values, Queues(), Bodies()
      ensures Valid() && Settled() && model == ReadHandled(old(model), fd, registered, read, env)
      ensures ret < 0 <==> ReadHandlerFails(old(model), fd, registered, read)
    {
      if fd !in sessions {
        var cs := OpenSession(fd, registered);
        if cs == null {
          return -1;
        }
      } else {
        NoteRead(fd, sessions[fd]);
      }
      assert Bound(fd);
      ret := ReadSession(fd, sessions[fd], read, env);
    }

    /** A read event that the event loop can have. */
    method ReadEvent(fd: int, registered: bool, read: ReadOutcome, env: nat -> Env)
      requires Valid() && Settled() && CanRead(model, fd)
      modifies this`model, this`sessions, this`queueOwner, this`bodyOwner, tasks
      modifies sessions.Values, Queues(), Bodies()
      ensures Valid() && Settled() && model == Receive(old(model), fd, registered, read, env)
    {
      assert fd in sessions ==> Bound(fd);
      var ret := ConnRead(fd, registered, read, env);
      if ret < 0 {
        CloseDescriptor(fd);
      }
    }

    /** Fresh bytes are appended to the buffer and scanned, what the scan left moves to the front; end
        of stream and errors take the session off the list. The result is negative in these cases, and
        also when there was nothing to read. */
    method ReadSession(fd: int, cs: ClientSession, read: ReadOutcome, env: nat -> Env) returns (ret: int)
      requires Valid() && Settled() && fd in sessions && sessions[fd] == cs
      modifies this`model, this`sessions, tasks, cs, cs.queue, cs.body
      ensures Valid() && Settled() && fd in old(model).sessions && model == ReadOpen(old(model), fd, read, env)
      ensures ret < 0 <==> ReadFails(old(model), fd, read)
    {
      assert Bound(fd);
      match read {
        case ReadWouldBlock => ret := -1;
        case ReadError =>
          CloseSession(fd);
          ret := -1;
        case Data(bytes) => ret := ReadBytes(fd, cs, bytes, env);
      }
    }

    /** As many bytes as fit are read in; none is the end of the stream. */
    method ReadBytes(fd: int, cs: ClientSession, bytes: seq<Byte>, env: nat -> Env) returns (ret: int)
      requires Valid() && Settled() && fd in sessions && sessions[fd] == cs
      modifies this`model, this`sessions, tasks, cs, cs.queue, cs.body
      ensures Valid() && Settled() && fd in old(model).sessions
      ensures model == ReadOpen(old(model), fd, Data(bytes), env)
      ensures ret < 0 <==> ReadFails(old(model), fd, Data(bytes))
    {
      assert Bound(fd);
      var n := Min(|bytes|, BODY_SIZE - cs.bodyLength);
      ReadIs(model, fd, bytes, n, env);
      if n == 0 {
        CloseSession(fd);
        ret := -1;
      } else {
        var kept := Ingest(fd, cs, bytes[..n], env);
        ret := if kept then n else -1;
      }
    }

    method AppendBytes(fd: int, cs: ClientSession, bytes: seq<Byte>)
      requires Valid() && Settled() && fd in sessions && sessions[fd] == cs
      requires cs.bodyLength + |bytes| <= BODY_SIZE
      modifies cs`bodyLength, cs.body
      ensures Valid() && fd in model.sessions && cs.bodyLength <= cs.body.Length
      ensures cs.body[..cs.bodyLength] == model.sessions[fd].body + bytes
      ensures forall k :: k in sessions && k != fd ==> sessions[k].bodyLength <= sessions[k].body.Length && sessions[k].Settled()
    {
      assert Bound(fd);
      cs.Append(bytes);
      forall k | k in sessions ensures Bound(k) && (k != fd ==> sessions[k].Settled()) {
        assert old(Bound(k));
        assert k != fd ==> unchanged(sessions[k]) && unchanged(sessions[k].body);
        assert unchanged(sessions[k].queue);
      }
    }

    method Ingest(fd: int, cs: ClientSession, bytes: seq<Byte>, env: nat -> Env) returns (kept: bool)
      requires Valid() && Settled() && fd in sessions && sessions[fd] == cs
      requires bytes != [] && cs.bodyLength + |bytes| <= BODY_SIZE
      modifies this`model, this`sessions, tasks, cs, cs.queue, cs.body
      ensures Valid() && Settled() && fd in old(model).sessions
      ensures var b := old(model).sessions[fd].body + bytes;
              model == Scanned(old(model), fd, b, env) && (kept <==> |b[Scan(b, 0).stop..]| < maxRequest)
    {
      AppendBytes(fd, cs, bytes);
      ScanAndCompact(fd, cs, env);
      ScannedIs(old(model), fd, old(model).sessions[fd].body + bytes, env, model);
      kept := KeepOrClose(fd, cs.bodyLength < maxRequest);
    }

    method KeepOrClose(fd: int, keep: bool) returns (kept: bool)
      requires Valid() && Settled()
      modifies this`model, this`sessions
      ensures Valid() && Settled() && kept == keep && model == if keep then old(model) else Close(old(model), fd)
    {
      kept := keep;
      if !keep {
        CloseSession(fd);
      }
    }

    method ScanAndCompact(fd: int, cs: ClientSession, env: nat -> Env)
      requires Valid() && fd in sessions && sessions[fd] == cs && cs.bodyLength <= cs.body.Length
      requires forall k :: k in sessions && k != fd ==> sessions[k].bodyLength <= sessions[k].body.Length && sessions[k].Settled()
      modifies this`model, tasks, cs, cs.queue, cs.body
      ensures Valid() && Settled()
      ensures var b := old(cs.body[..cs.bodyLength]);
              var f := Scan(b, 0);
              && AllIn(b, f.events) && fd in Events(old(model), fd, b, f.events, env).sessions
              && cs.bodyLength == |b| - f.stop
              && model == SetBody(Events(old(model), fd, b, f.events, env), fd, b[f.stop..])
    {
      ghost var b := cs.body[..cs.bodyLength];
      var pos := ScanBody(fd, cs, env);
      ScanStop(b, 0);
      Compact(fd, cs, pos);
    }

    method Compact(fd: int, cs: ClientSession, pos: nat)
      requires Valid() && fd in sessions && sessions[fd] == cs
      requires pos <= cs.bodyLength <= cs.body.Length && cs.bodyLength - pos <= 1
      requires forall k :: k in sessions && k != fd ==> sessions[k].bodyLength <= sessions[k].body.Length && sessions[k].Settled()
      modifies this`model, cs`bodyLength, cs`carry, cs.body
      ensures Valid() && Settled() && fd in old(model).sessions
      ensures cs.bodyLength == old(cs.bodyLength) - pos
      ensures model == SetBody(old(model), fd, old(cs.body[pos..cs.bodyLength]))
    {
      assert Bound(fd);
      ghost var rest := cs.body[pos..cs.bodyLength];
      cs.Compact(pos);
      model := SetBody(model, fd, rest);
      forall k | k in sessions ensures Bound(k) && sessions[k].Settled() {
        assert old(Bound(k));
        assert k != fd ==> unchanged(sessions[k]) && unchanged(sessions[k].queue) && unchanged(sessions[k].body);
      }
    }
  }
}
