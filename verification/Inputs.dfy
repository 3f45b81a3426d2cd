// From the byte stream a client sends to the requests its session takes in: between the two stand
// the cuts between reads, the other connections, the background thread and the flush.

module Inputs {
  import opened Seqs
  import opened Bytes
  import opened Requests
  import opened Responses
  import opened Scanner
  import opened SplitReads
  import opened ResponseRing
  import opened Gateway
  import opened Invariants
  import opened Steps

  /** What an event makes the session take a sequence number for. */
  function HeardIn(b: seq<Byte>, e: Event): Option<Request>
    requires EventIn(b, e)
  {
    if e.Dispatch? then Some(Parsed(b[e.at..e.at + e.size])) else None
  }

  function Heard(b: seq<Byte>, es: seq<Event>): (r: seq<Option<Request>>)
    requires AllIn(b, es)
    ensures |r| == |es| && forall i :: 0 <= i < |es| ==> r[i] == HeardIn(b, es[i])
  {
    seq(|es|, i requires 0 <= i < |es| => HeardIn(b, es[i]))
  }

  lemma HeardSnoc(b: seq<Byte>, es: seq<Event>)
    requires es != [] && AllIn(b, es)
    ensures var n := |es| - 1; AllIn(b, es[..n]) && Heard(b, es) == Heard(b, es[..n]) + [HeardIn(b, es[n])]
  {
  }

  // --- One scan ---

  /** The part of a session that its own reads determine. */
  predicate Took(s: Session, t: Session, more: seq<Option<Request>>) {
    t.open && t.body == s.body && t.asked == s.asked + more
  }

  lemma TookTwice(s: Session, t: Session, u: Session, xs: seq<Option<Request>>, ys: seq<Option<Request>>)
    requires Took(s, t, xs) && Took(t, u, ys)
    ensures Took(s, u, xs + ys)
  {
    Assoc(s.asked, xs, ys);
  }

  lemma GoodFrameHeard(g: Gateway, fd: int, r: Request, env: Env)
    requires Live(g, fd)
    ensures var h := GoodFrame(g, fd, r, env);
            fd in h.sessions && Took(g.sessions[fd], h.sessions[fd], [Some(r)])
  {
  }

  lemma BadFrameHeard(g: Gateway, fd: int)
    requires Live(g, fd)
    ensures var h := BadFrame(g, fd);
            fd in h.sessions && Took(g.sessions[fd], h.sessions[fd], [None])
  {
  }

  lemma OneEventHeard(g: Gateway, fd: int, b: seq<Byte>, e: Event, env: Env)
    requires Live(g, fd) && EventIn(b, e)
    ensures var h := OneEvent(g, fd, b, e, env);
            fd in h.sessions && Took(g.sessions[fd], h.sessions[fd], [HeardIn(b, e)])
  {
    var g0 := Meanwhile(g, env.batch);
    assert g0.sessions == g.sessions;
    if e.Dispatch? {
      GoodFrameHeard(g0, fd, Parsed(b[e.at..e.at + e.size]), env);
    } else {
      BadFrameHeard(g0, fd);
    }
  }

  /** Handling the events of a scan takes one sequence number for each, in their order. */
  lemma {:induction false} EventsHeard(g: Gateway, fd: int, b: seq<Byte>, es: seq<Event>, env: nat -> Env)
    requires Live(g, fd) && AllIn(b, es)
    ensures var h := Events(g, fd, b, es, env);
            fd in h.sessions && Took(g.sessions[fd], h.sessions[fd], Heard(b, es))
    decreases |es|
  {
    if es == [] {
      assert Heard(b, []) == [];
    } else {
      var n := |es| - 1;
      HeardSnoc(b, es);
      EventsHeard(g, fd, b, es[..n], env);
      var h := Events(g, fd, b, es[..n], env);
      OneEventHeard(h, fd, b, es[n], env(n));
      TookTwice(g.sessions[fd], h.sessions[fd], OneEvent(h, fd, b, es[n], env(n)).sessions[fd],
                Heard(b, es[..n]), [HeardIn(b, es[n])]);
    }
  }

  // --- A run ---

  /** What the session of a connection has taken so far; nothing before its first read. */
  function AskedBy(g: Gateway, fd: int): seq<Option<Request>> {
    if fd in g.sessions then g.sessions[fd].asked else []
  }

  function BodyOf(g: Gateway, fd: int): seq<Byte> {
    if fd in g.sessions then g.sessions[fd].body else []
  }

  /** The connection is there to be read from. */
  predicate Reading(g: Gateway, fd: int) { fd !in g.gone && (fd in g.sessions ==> g.sessions[fd].open) }

  /** What the step does on this connection does not end it: it reads something that fits into the
      buffer, which is all the reader asks for, when a read event can come, or it writes while no byte
      waits to be scanned and the write goes well. What it does elsewhere does not matter. */
  ghost predicate Undisturbed(g: Gateway, step: Step, fd: int) {
    match step
    case OnReadable(k, registered, read, _) =>
      k == fd ==>
        CanRead(g, fd) && (fd in g.sessions || registered) && read.Data? && 0 < |read.bytes| <= BODY_SIZE - |BodyOf(g, fd)|
    case OnWritable(k, registered, kernel) =>
      k == fd && registered ==>
        Serving(g, fd) && (g.sessions[fd].writing ==> g.sessions[fd].body == [] && GoesWell(g.sessions[fd].ring, kernel))
    case OnHangup(k) => k != fd
    case _ => true
  }

  ghost predicate AllUndisturbed(g: Gateway, steps: seq<Step>, fd: int)
    decreases |steps|
  {
    steps == [] || (Undisturbed(g, steps[0], fd) && AllUndisturbed(Apply(g, steps[0]), steps[1..], fd))
  }

  predicate Reads(step: Step, fd: int) { step.OnReadable? && step.fd == fd && step.read.Data? }

  /** What the reads on a connection brought in, in order. */
  function Chunks(steps: seq<Step>, fd: int): seq<seq<Byte>> {
    if steps == [] then []
    else (if Reads(steps[0], fd) then [steps[0].read.bytes] else []) + Chunks(steps[1..], fd)
  }

  /** What is taken when the chunks are read one after the other, carry being in the buffer. */
  function FeedHeard(carry: seq<Byte>, chunks: seq<seq<Byte>>): seq<Option<Request>>
    decreases |chunks|
  {
    if chunks == [] then []
    else
      var buf := carry + chunks[0];
      var f := Scan(buf, 0);
      ScanEventsIn(buf, 0);
      Heard(buf, f.events) + FeedHeard(buf[f.stop..], chunks[1..])
  }

  /** The step does nothing to what the connection has taken and sent, to what it has left to scan, to its
      being open, nor to whether a read event can come. */
  predicate Untouched(g: Gateway, h: Gateway, fd: int) {
    && (fd in h.sessions <==> fd in g.sessions) && (fd in h.gone <==> fd in g.gone)
    && (fd in g.sessions ==>
          var s, t := g.sessions[fd], h.sessions[fd];
          t.open == s.open && t.body == s.body && t.asked == s.asked && t.accepted == s.accepted
          && (Readable(t) <==> Readable(s)))
  }

  lemma OneEventElsewhere(g: Gateway, k: int, b: seq<Byte>, e: Event, env: Env, fd: int)
    requires EventIn(b, e) && k != fd
    ensures Untouched(g, OneEvent(g, k, b, e, env), fd)
  {
    var g0 := Meanwhile(g, env.batch);
    assert g0.sessions == g.sessions && g0.gone == g.gone;
  }

  lemma {:induction false} EventsElsewhere(g: Gateway, k: int, b: seq<Byte>, es: seq<Event>, env: nat -> Env, fd: int)
    requires AllIn(b, es) && k != fd
    ensures Untouched(g, Events(g, k, b, es, env), fd)
    decreases |es|
  {
    if es != [] {
      var n := |es| - 1;
      EventsElsewhere(g, k, b, es[..n], env, fd);
      var h := Events(g, k, b, es[..n], env);
      OneEventElsewhere(h, k, b, es[n], env(n), fd);
    }
  }

  lemma ReadOpenElsewhere(g: Gateway, k: int, read: ReadOutcome, env: nat -> Env, fd: int)
    requires k in g.sessions && k != fd
    ensures Untouched(g, ReadOpen(g, k, read, env), fd)
  {
    if read.Data? && read.bytes != [] && Room(g.sessions[k].body) != 0 {
      ScannedElsewhere(g, k, ReadIn(g, k, read.bytes), env, fd);
    }
  }

  lemma ReadElsewhere(g: Gateway, k: int, registered: bool, read: ReadOutcome, env: nat -> Env, fd: int)
    requires k != fd
    ensures Untouched(g, Receive(g, k, registered, read, env), fd)
  {
    ReadOpenElsewhere(Opened(g, k), k, read, env, fd);
  }

  lemma ScannedElsewhere(g: Gateway, k: int, b: seq<Byte>, env: nat -> Env, fd: int)
    requires k in g.sessions && k != fd
    ensures Untouched(g, Scanned(g, k, b, env), fd)
  {
    ScanEventsIn(b, 0);
    EventsElsewhere(g, k, b, Scan(b, 0).events, env, fd);
    EventsKeepSessions(g, k, b, Scan(b, 0).events, env);
  }

  lemma {:induction false} FlushLeavesAlone(g: Gateway, n: nat, fd: int)
    requires n <= |g.slots|
    ensures Untouched(g, FlushTo(g, n), fd)
  {
    if n > 0 {
      FlushLeavesAlone(g, n - 1, fd);
      SlotLeavesAlone(FlushTo(g, n - 1), n - 1, fd);
    }
  }

  lemma SlotLeavesAlone(g: Gateway, i: nat, fd: int)
    requires i < |g.slots|
    ensures Untouched(g, FlushSlot(g, i), fd)
  {
  }

  /** Nothing happens on this connection. */
  predicate Elsewhere(step: Step, fd: int) {
    match step
    case OnReadable(k, _, _, _) => k != fd
    case OnWritable(k, _, _) => k != fd
    case OnHangup(k) => k != fd
    case _ => true
  }

  /** The events of other connections, the background thread and the flush leave a connection alone. */
  lemma OthersLeaveAlone(g: Gateway, step: Step, fd: int)
    requires Elsewhere(step, fd)
    ensures Untouched(g, Apply(g, step), fd)
  {
    match step {
      case OnReadable(k, registered, read, env) => ReadElsewhere(g, k, registered, read, env, fd);
      case RunFlush => FlushLeavesAlone(g, |g.slots|, fd);
      case OnWritable(k, registered, kernel) =>
      case OnHangup(k) =>
      case RunBatch(run) =>
    }
  }

  // --- The first and the last event of a connection ---

  /** A connection that the scheduler does not know gets no session and is closed. */
  lemma UnknownReadCloses(g: Gateway, fd: int, read: ReadOutcome, env: nat -> Env)
    requires CanRead(g, fd) && fd !in g.sessions
    ensures var h := Receive(g, fd, false, read, env);
            h.sessions == g.sessions && h.gone == g.gone + {fd} && h.slots == g.slots && h.log == g.log
  {
  }

  /** Its first write event leaves it open; another one without a session closes it. */
  lemma WriteWithoutSession(g: Gateway, fd: int, registered: bool, kernel: Kernel)
    requires CanWrite(g, fd) && !Live(g, fd)
    ensures var h := Writable(g, fd, registered, kernel);
            h.sessions == g.sessions && h.slots == g.slots && (fd in h.gone <==> registered)
  {
  }

  /** An error event takes the session off the list and closes the descriptor. */
  lemma HangupEnds(g: Gateway, fd: int)
    requires fd !in g.gone
    ensures var h := Broken(g, fd);
            && !Live(h, fd) && h.gone == g.gone + {fd} && h.slots == g.slots && h.log == g.log
            && (fd in g.sessions ==> fd in h.sessions && h.sessions[fd].asked == g.sessions[fd].asked)
  {
  }

  // --- Reads wait for the write ---

  predicate Writes(step: Step, fd: int) { step.OnWritable? && step.fd == fd }

  predicate NoWrites(steps: seq<Step>, fd: int) { forall i :: 0 <= i < |steps| ==> !Writes(steps[i], fd) }

  /** No read event can come, and nothing more has been taken. */
  predicate Deaf(g: Gateway, h: Gateway, fd: int) {
    && fd in g.sessions && fd in h.sessions && !Readable(h.sessions[fd])
    && h.sessions[fd].asked == g.sessions[fd].asked && h.sessions[fd].body == g.sessions[fd].body
  }

  lemma DeafStep(g: Gateway, step: Step, fd: int)
    requires fd in g.sessions && !Readable(g.sessions[fd]) && !Writes(step, fd)
    ensures Deaf(g, Apply(g, step), fd)
  {
    if Elsewhere(step, fd) {
      OthersLeaveAlone(g, step, fd);
    }
  }

  /** A session that waits for room to write, with no read event on its way, takes nothing more over any
      run until its write event. */
  lemma {:induction false} ReadsWaitForWrite(g: Gateway, fd: int, steps: seq<Step>, h: Gateway)
    requires fd in g.sessions && !Readable(g.sessions[fd]) && NoWrites(steps, fd) && h == Exec(g, steps)
    ensures Deaf(g, h, fd)
    decreases |steps|
  {
    if steps != [] {
      assert !Writes(steps[0], fd);
      DeafStep(g, steps[0], fd);
      ReadsWaitForWrite(Apply(g, steps[0]), fd, steps[1..], h);
    }
  }

  lemma OneEventInTime(g: Gateway, fd: int, b: seq<Byte>, e: Event, env: Env)
    requires EventIn(b, e) && fd in g.sessions && !g.sessions[fd].late
    ensures var h := OneEvent(g, fd, b, e, env); fd in h.sessions && !h.sessions[fd].late
  {
    var g0 := Meanwhile(g, env.batch);
    assert g0.sessions == g.sessions;
  }

  lemma {:induction false} EventsInTime(g: Gateway, fd: int, b: seq<Byte>, es: seq<Event>, env: nat -> Env)
    requires AllIn(b, es) && fd in g.sessions && !g.sessions[fd].late
    ensures var h := Events(g, fd, b, es, env); fd in h.sessions && !h.sessions[fd].late
    decreases |es|
  {
    if es != [] {
      var n := |es| - 1;
      EventsInTime(g, fd, b, es[..n], env);
      OneEventInTime(Events(g, fd, b, es[..n], env), fd, b, es[n], env(n));
    }
  }

  /** A read event on its way comes once: behind it, a session that waits for room to write can have no
      other. */
  lemma LateReadComesOnce(g: Gateway, fd: int, registered: bool, read: ReadOutcome, env: nat -> Env)
    requires CanRead(g, fd) && fd in g.sessions
    ensures var h := Receive(g, fd, registered, read, env);
            fd in h.sessions && (h.sessions[fd].writing ==> !Readable(h.sessions[fd]))
  {
    var g0 := Opened(g, fd);
    if read.Data? {
      var b := ReadIn(g0, fd, read.bytes);
      ScanEventsIn(b, 0);
      EventsInTime(g0, fd, b, Scan(b, 0).events, env);
      EventsKeepSessions(g0, fd, b, Scan(b, 0).events, env);
    }
  }

  /** A read takes the beginning of what came, as far as the buffer has room, and fills it to 4096 bytes at
      most. */
  lemma ReadStaysInBuffer(g: Gateway, fd: int, bytes: seq<Byte>)
    requires fd in g.sessions && |g.sessions[fd].body| <= 4096
    ensures var all := g.sessions[fd].body + bytes;
            ReadIn(g, fd, bytes) == if |all| <= 4096 then all else all[..4096]
  {
  }

  // --- Sessions that outlive their connection ---

  /** The session is on the list and its descriptor is closed. */
  predicate Orphan(g: Gateway, fd: int) { Live(g, fd) && fd in g.gone }

  /** A read event with nothing to read closes the descriptor and leaves the session on the list... */
  lemma NothingToReadOrphans(g: Gateway, fd: int, registered: bool, env: nat -> Env)
    requires CanRead(g, fd) && (fd in g.sessions || registered)
    ensures Orphan(Receive(g, fd, registered, ReadWouldBlock, env), fd)
  {
  }

  lemma OrphanStep(g: Gateway, step: Step, fd: int)
    requires Orphan(g, fd)
    ensures Untouched(g, Apply(g, step), fd)
  {
    if Elsewhere(step, fd) {
      OthersLeaveAlone(g, step, fd);
    }
  }

  /** ... where it stays over every run; it takes no further request and sends no further byte. */
  lemma {:induction false} OrphanStays(g: Gateway, fd: int, steps: seq<Step>)
    requires Orphan(g, fd)
    ensures Orphan(Exec(g, steps), fd) && Untouched(g, Exec(g, steps), fd)
    decreases |steps|
  {
    if steps != [] {
      OrphanStep(g, steps[0], fd);
      OrphanStays(Apply(g, steps[0]), fd, steps[1..]);
    }
  }

  /** A session leaves the list only together with its descriptor. */
  predicate Ended(g: Gateway, fd: int) { fd in g.sessions && !g.sessions[fd].open ==> fd in g.gone }

  lemma EndedStep(g: Gateway, step: Step, fd: int)
    requires Ended(g, fd)
    ensures Ended(Apply(g, step), fd)
  {
    if Elsewhere(step, fd) {
      OthersLeaveAlone(g, step, fd);
    } else if step.OnReadable? && Reading(g, fd) && (fd in g.sessions || step.registered) && step.read.Data? {
      var g0 := Opened(g, fd);
      ScannedHears(g0, fd, ReadIn(g0, fd, step.read.bytes), step.env);
    }
  }

  /** So in every reachable state an event on an open descriptor finds a session of the list or none at
      all. */
  lemma {:induction false} RunEnded(g: Gateway, steps: seq<Step>, fd: int)
    requires Ended(g, fd)
    ensures Ended(Exec(g, steps), fd)
    decreases |steps|
  {
    if steps != [] {
      EndedStep(g, steps[0], fd);
      RunEnded(Apply(g, steps[0]), steps[1..], fd);
    }
  }

  // --- Reads and writes of the connection itself ---

  lemma {:induction false} EventsKeepLimit(g: Gateway, fd: int, b: seq<Byte>, es: seq<Event>, env: nat -> Env)
    requires AllIn(b, es)
    ensures var h := Events(g, fd, b, es, env); h.maxRequest == g.maxRequest && h.gone == g.gone
    decreases |es|
  {
    if es != [] {
      var n := |es| - 1;
      EventsKeepLimit(g, fd, b, es[..n], env);
      OneEventKeepsLimit(Events(g, fd, b, es[..n], env), fd, b, es[n], env(n));
    }
  }

  lemma OneEventKeepsLimit(g: Gateway, fd: int, b: seq<Byte>, e: Event, env: Env)
    requires EventIn(b, e)
    ensures var h := OneEvent(g, fd, b, e, env); h.maxRequest == g.maxRequest && h.gone == g.gone
  {
  }

  /** Everything the scan of the buffer finds is taken, in order; the session stays on the list unless
      what is left reaches the limit. */
  lemma {:induction false} ScannedHears(g: Gateway, fd: int, buf: seq<Byte>, env: nat -> Env)
    requires Live(g, fd)
    ensures AllIn(buf, Scan(buf, 0).events)
    ensures var h := Scanned(g, fd, buf, env);
            && fd in h.sessions && h.gone == g.gone && BodyOf(h, fd) == buf[Scan(buf, 0).stop..]
            && (Live(h, fd) <==> |BodyOf(h, fd)| < g.maxRequest)
            && AskedBy(h, fd) == AskedBy(g, fd) + Heard(buf, Scan(buf, 0).events)
  {
    ScanEventsIn(buf, 0);
    EventsHeard(g, fd, buf, Scan(buf, 0).events, env);
    EventsKeepLimit(g, fd, buf, Scan(buf, 0).events, env);
  }

  /** A read that fits is a scan of what was left over and what came in. */
  lemma FittingRead(g: Gateway, fd: int, registered: bool, bytes: seq<Byte>, env: nat -> Env)
    requires CanRead(g, fd) && (fd in g.sessions || registered) && 0 < |bytes| <= BODY_SIZE - |BodyOf(g, fd)|
    ensures var g0, buf := Opened(g, fd), BodyOf(g, fd) + bytes;
            && Live(g0, fd) && AskedBy(g0, fd) == AskedBy(g, fd) && g0.gone == g.gone && g0.maxRequest == g.maxRequest
            && Receive(g, fd, registered, Data(bytes), env)
               == if |buf[Scan(buf, 0).stop..]| >= g.maxRequest then HangUp(Scanned(g0, fd, buf, env), fd)
                  else Scanned(g0, fd, buf, env)
  {
    assert bytes[..|bytes|] == bytes;
    assert ReadIn(Opened(g, fd), fd, bytes) == BodyOf(g, fd) + bytes;
  }

  lemma OwnRead(g: Gateway, fd: int, registered: bool, bytes: seq<Byte>, env: nat -> Env)
    requires CanRead(g, fd) && (fd in g.sessions || registered) && g.maxRequest > 1
    requires 0 < |bytes| <= BODY_SIZE - |BodyOf(g, fd)|
    ensures var h, buf := Receive(g, fd, registered, Data(bytes), env), BodyOf(g, fd) + bytes;
            && AllIn(buf, Scan(buf, 0).events)
            && Serving(h, fd) && BodyOf(h, fd) == buf[Scan(buf, 0).stop..]
            && AskedBy(h, fd) == AskedBy(g, fd) + Heard(buf, Scan(buf, 0).events)
  {
    FittingRead(g, fd, registered, bytes, env);
    ScannedHears(Opened(g, fd), fd, BodyOf(g, fd) + bytes, env);
    LeftOver(BodyOf(g, fd) + bytes);
  }

  lemma OwnWrite(g: Gateway, fd: int, registered: bool, kernel: Kernel)
    requires Reading(g, fd) && Undisturbed(g, OnWritable(fd, registered, kernel), fd)
    ensures var h := Writable(g, fd, registered, kernel);
            Reading(h, fd) && AskedBy(h, fd) == AskedBy(g, fd) && BodyOf(h, fd) == BodyOf(g, fd)
  {
    if Serving(g, fd) {
      DrainGoesWellIff(g.sessions[fd].ring, kernel);
    }
  }

  lemma OtherStep(g: Gateway, step: Step, fd: int)
    requires Reading(g, fd) && Undisturbed(g, step, fd) && !Reads(step, fd)
    ensures var h := Apply(g, step);
            Reading(h, fd) && AskedBy(h, fd) == AskedBy(g, fd) && BodyOf(h, fd) == BodyOf(g, fd)
  {
    if step.OnWritable? && step.fd == fd {
      OwnWrite(g, fd, step.registered, step.kernel);
    } else {
      OthersLeaveAlone(g, step, fd);
    }
  }

  /** The first step of an undisturbed run. */
  lemma RunHearsFrom(g: Gateway, fd: int, step: Step, h: Gateway)
    requires Reading(g, fd) && g.maxRequest > 1 && Undisturbed(g, step, fd) && h == Apply(g, step)
    ensures Reading(h, fd)
    ensures if Reads(step, fd) then
              var buf := BodyOf(g, fd) + step.read.bytes;
              && AllIn(buf, Scan(buf, 0).events) && BodyOf(h, fd) == buf[Scan(buf, 0).stop..]
              && AskedBy(h, fd) == AskedBy(g, fd) + Heard(buf, Scan(buf, 0).events)
            else AskedBy(h, fd) == AskedBy(g, fd) && BodyOf(h, fd) == BodyOf(g, fd)
  {
    if Reads(step, fd) {
      OwnRead(g, fd, step.registered, step.read.bytes, step.env);
    } else {
      OtherStep(g, step, fd);
    }
  }

  /** Over every run that does not disturb the connection, its session takes exactly what its own
      reads bring, whatever happens between them. */
  lemma {:induction false} RunHears(g: Gateway, fd: int, steps: seq<Step>)
    requires Inv(g) && Reading(g, fd) && g.maxRequest > 1 && AllUndisturbed(g, steps, fd)
    ensures Reading(Exec(g, steps), fd)
    ensures AskedBy(Exec(g, steps), fd) == AskedBy(g, fd) + FeedHeard(BodyOf(g, fd), Chunks(steps, fd))
    decreases |steps|
  {
    if steps != [] {
      var step, later := steps[0], steps[1..];
      var h := Apply(g, step);
      ApplyKept(g, step);
      RunHearsFrom(g, fd, step, h);
      RunHears(h, fd, later);
      if Reads(step, fd) {
        HearOne(AskedBy(g, fd), BodyOf(g, fd), step.read.bytes, Chunks(later, fd));
      } else {
        assert Chunks(steps, fd) == Chunks(later, fd);
      }
    }
  }

  lemma HearOne(asked: seq<Option<Request>>, body: seq<Byte>, bytes: seq<Byte>, chunks: seq<seq<Byte>>)
    ensures var buf := body + bytes;
            && AllIn(buf, Scan(buf, 0).events)
            && asked + FeedHeard(body, [bytes] + chunks)
               == asked + Heard(buf, Scan(buf, 0).events) + FeedHeard(buf[Scan(buf, 0).stop..], chunks)
  {
    var buf := body + bytes;
    ScanEventsIn(buf, 0);
    assert ([bytes] + chunks)[1..] == chunks;
    Assoc(asked, Heard(buf, Scan(buf, 0).events), FeedHeard(buf[Scan(buf, 0).stop..], chunks));
  }

  /** What a read event leaves of a session that is served. If the event can come, the connection stays
      open if and only if something came in and the size limit exceeds 1, or is 1 and the scan of what is
      in the buffer then stops at its end: the buffer is never full when a read begins, and at most one
      byte is ever left. The session stays on the list then, and also when there was nothing to read. */
  lemma ReadSurvivesIff(g: Gateway, fd: int, registered: bool, read: ReadOutcome, env: nat -> Env)
    requires Inv(g) && Serving(g, fd)
    ensures var h := Receive(g, fd, registered, read, env);
            && fd in h.sessions
            && (fd !in h.gone <==> (Readable(g.sessions[fd]) ==> read.Data? && LeavesOpen(g, fd, read.bytes)))
            && (Live(h, fd) <==> fd !in h.gone || read.ReadWouldBlock?)
  {
    assert OkSession(g, fd);
    if Readable(g.sessions[fd]) && read.Data? && read.bytes != [] {
      DataSurvives(g, fd, read.bytes, env);
    }
  }

  lemma DataSurvives(g: Gateway, fd: int, bytes: seq<Byte>, env: nat -> Env)
    requires Live(g, fd) && BodySmall(g.sessions[fd]) && bytes != []
    ensures ReadFails(Opened(g, fd), fd, Data(bytes)) <==> !LeavesOpen(g, fd, bytes)
    ensures var h := ReadOpen(Opened(g, fd), fd, Data(bytes), env);
            fd in h.sessions && h.gone == g.gone && (Live(h, fd) <==> LeavesOpen(g, fd, bytes))
  {
    var buf := ReadIn(g, fd, bytes);
    assert buf == ReadIn(Opened(g, fd), fd, bytes);
    ScannedHears(Opened(g, fd), fd, buf, env);
    LeftOver(buf);
  }

  /** These bytes, read in, do not make the reader give the session up. */
  predicate LeavesOpen(g: Gateway, fd: int, bytes: seq<Byte>)
    requires fd in g.sessions
  {
    var buf := ReadIn(g, fd, bytes);
    bytes != [] && (g.maxRequest > 1 || (g.maxRequest == 1 && Scan(buf, 0).stop == |buf|))
  }

  // --- The stream ---

  /** An event found in a part of the stream, seen from its beginning. */
  lemma EventMoved(s: seq<Byte>, pos: nat, q: nat, e: Event)
    requires pos <= q <= |s| && EventIn(s[pos..q], e)
    ensures EventIn(s, Moved(e, pos)) && HeardIn(s, Moved(e, pos)) == HeardIn(s[pos..q], e)
  {
    if e.Dispatch? {
      SliceOfSlice(s, pos, q, e.at, e.at + e.size);
    }
  }

  lemma {:induction false} HeardMoved(s: seq<Byte>, pos: nat, q: nat, es: seq<Event>)
    requires pos <= q <= |s| && AllIn(s[pos..q], es)
    ensures AllIn(s, Shift(es, pos)) && Heard(s[pos..q], es) == Heard(s, Shift(es, pos))
    decreases |es|
  {
    var moved := Shift(es, pos);
    forall i | 0 <= i < |es| ensures EventIn(s, moved[i]) && HeardIn(s, moved[i]) == HeardIn(s[pos..q], es[i]) {
      ShiftAt(es, pos, i);
      EventMoved(s, pos, q, es[i]);
    }
  }

  lemma {:induction false} ShiftAt(es: seq<Event>, k: nat, i: nat)
    requires i < |es|
    ensures Shift(es, k)[i] == Moved(es[i], k)
    decreases |es|
  {
    if i > 0 {
      ShiftAt(es[1..], k, i - 1);
    }
  }

  /** One read of the stream, carry being the bytes before base that are still to be scanned. */
  lemma {:induction false} OneReadHeard(s: seq<Byte>, pos: nat, base: nat, carry: seq<Byte>, chunks: seq<seq<Byte>>)
    requires pos <= base <= |s| && carry == s[pos..base] && chunks != [] && s[base..] == Joined(chunks)
    ensures var q, buf := base + |chunks[0]|, carry + chunks[0];
            var f := Scan(buf, 0);
            && q <= |s| && s[q..] == Joined(chunks[1..])
            && pos + f.stop <= q && buf[f.stop..] == s[pos + f.stop..q]
            && AllIn(buf, f.events) && AllIn(s, Shift(f.events, pos))
            && Heard(buf, f.events) == Heard(s, Shift(f.events, pos))
  {
    var q, buf := base + |chunks[0]|, carry + chunks[0];
    assert s[base..q] == chunks[0] && s[q..] == s[base..][|chunks[0]|..];
    assert buf == s[pos..q];
    ScanEventsIn(buf, 0);
    HeardMoved(s, pos, q, Scan(buf, 0).events);
    SliceOfSlice(s, pos, q, Scan(buf, 0).stop, q - pos);
  }

  /** What is taken in chunks is what the events of the chunks say in the stream. */
  lemma {:induction false} FeedIsHeard(s: seq<Byte>, pos: nat, base: nat, carry: seq<Byte>, chunks: seq<seq<Byte>>)
    requires pos <= base <= |s| && carry == s[pos..base] && s[base..] == Joined(chunks)
    ensures AllIn(s, Feed(carry, pos, chunks))
    ensures FeedHeard(carry, chunks) == Heard(s, Feed(carry, pos, chunks))
    decreases |chunks|
  {
    if chunks != [] {
      OneReadHeard(s, pos, base, carry, chunks);
      var buf := carry + chunks[0];
      var f := Scan(buf, 0);
      FeedIsHeard(s, pos + f.stop, base + |chunks[0]|, buf[f.stop..], chunks[1..]);
    }
  }

  /** On a new connection that is not disturbed: the session takes what the events of its reads say in
      the stream; when no read boundary cuts a frame, that is what one scan of the whole stream finds. */
  lemma {:induction false} StreamIsTaken(g: Gateway, fd: int, steps: seq<Step>)
    requires Inv(g) && Reading(g, fd) && fd !in g.sessions && g.maxRequest > 1 && AllUndisturbed(g, steps, fd)
    ensures var chunks := Chunks(steps, fd);
            var stream := Joined(chunks);
            && AllIn(stream, Feed([], 0, chunks)) && AllIn(stream, Scan(stream, 0).events)
            && AskedBy(Exec(g, steps), fd) == Heard(stream, Feed([], 0, chunks))
            && (NoCut(stream, 0, 0, chunks) ==> AskedBy(Exec(g, steps), fd) == Heard(stream, Scan(stream, 0).events))
  {
    RunHears(g, fd, steps);
    ChunksHeard(Chunks(steps, fd));
  }

  lemma {:induction false} ChunksHeard(chunks: seq<seq<Byte>>)
    ensures var stream := Joined(chunks);
            && AllIn(stream, Feed([], 0, chunks)) && AllIn(stream, Scan(stream, 0).events)
            && [] + FeedHeard([], chunks) == Heard(stream, Feed([], 0, chunks))
            && (NoCut(stream, 0, 0, chunks) ==> Feed([], 0, chunks) == Scan(stream, 0).events)
  {
    var stream := Joined(chunks);
    ScanEventsIn(stream, 0);
    assert stream[0..0] == [] && stream[0..] == stream;
    FeedIsHeard(stream, 0, 0, [], chunks);
    SplitReadsIff(chunks);
  }
}
