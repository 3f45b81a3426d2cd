// The session object: its read buffer, its sequence counters and its response ring, updated in
// place, and the write handler that drains the ring.

module Sessions {
  import opened Seqs
  import opened Bytes
  import opened Requests
  import opened Responses
  import opened ResponseRing
  import opened Router
  import opened Gateway

  function Flat(iov: seq<seq<Byte>>): seq<Byte> {
    if iov == [] then [] else Flat(iov[..|iov| - 1]) + iov[|iov| - 1]
  }

  lemma {:induction false} OfferedSnoc(p: seq<RespSlot>, g: nat)
    requires g < |p|
    ensures Offered(p, g + 1) == Offered(p, g) + p[g].frame
  {
    if g > 0 {
      OfferedSnoc(p[1..], g - 1);
      Assoc(p[0].frame, Offered(p[1..], g - 1), p[g].frame);
    }
  }

  /** One slot further along the occupied slots p. */
  lemma ViewStep(buf: seq<RespSlot>, scan: nat, tail: nat, p: seq<RespSlot>, i: nat)
    requires |buf| == DEPTH && scan < DEPTH && tail < DEPTH && scan != tail
    requires i <= |p| && View(buf, scan, tail) == p[i..]
    ensures i < |p| && p[i] == buf[scan] && View(buf, Wrap(scan), tail) == p[i + 1..]
  {
    ViewFirst(buf, scan, tail);
    assert p[i] == p[i..][0] && p[i..][1..] == p[i + 1..];
  }

  /** The whole drain comes to what was taken so far and what the drain of the rest comes to. */
  ghost predicate DrainedSoFar(whole: Drained, p: seq<RespSlot>, kernel: Kernel, i: nat, taken: seq<Byte>, sentAny: bool)
    requires Disciplined(p)
  {
    var d := Drain(p, kernel, i);
    whole == Drained(d.pending, taken + d.accepted, sentAny || d.sentAny, d.fatal)
  }

  lemma DrainStep(whole: Drained, p: seq<RespSlot>, kernel: Kernel, i: nat, taken: seq<Byte>, sentAny: bool, n: nat)
    requires Disciplined(p) && p != [] && Gathered(p, BATCH) != 0 && 0 < n == |Taken(p, kernel(i))|
    requires DrainedSoFar(whole, p, kernel, i, taken, sentAny)
    ensures n <= |Unsent(p)| && Disciplined(Advance(p, n)) && |Unsent(Advance(p, n))| < |Unsent(p)|
    ensures DrainedSoFar(whole, Advance(p, n), kernel, i + 1, taken + Taken(p, kernel(i)), true)
  {
    DrainGoesOn(p, kernel, i, n);
    Assoc(taken, Taken(p, kernel(i)), Drain(Advance(p, n), kernel, i + 1).accepted);
  }

  /** Aggregation stops at the limit, at the end, or at a slot that is partly sent. */
  lemma {:induction false} GatheredIs(p: seq<RespSlot>, limit: nat, i: nat)
    requires i <= limit && i <= |p| && forall k :: 0 <= k < i ==> p[k].sent == 0
    requires i == limit || i == |p| || p[i].sent != 0
    ensures Gathered(p, limit) == i
  {
    if i > 0 {
      GatheredIs(p[1..], limit - 1, i - 1);
    }
  }

  /** The frames gathered are those of the first slots of p, all of them untouched. */
  ghost predicate GatheredSoFar(p: seq<RespSlot>, iov: seq<seq<Byte>>) {
    && |iov| <= |p| && Flat(iov) == Offered(p, |iov|)
    && forall k :: 0 <= k < |iov| ==> p[k].sent == 0
  }

  lemma GatheredMore(p: seq<RespSlot>, iov: seq<seq<Byte>>)
    requires GatheredSoFar(p, iov) && |iov| < |p| && p[|iov|].sent == 0
    ensures GatheredSoFar(p, iov + [p[|iov|].frame])
  {
    var more := iov + [p[|iov|].frame];
    OfferedSnoc(p, |iov|);
    assert more[..|iov|] == iov;
  }

  lemma DisciplinedHead(p: seq<RespSlot>, s: RespSlot)
    requires Disciplined(p) && p != [] && SlotOk(s)
    ensures Disciplined([s] + p[1..])
  {
  }

  class ClientSession {
    const socket: int
    const body: array<Byte>
    var bodyLength: nat
    var nextReqSeq: U32
    const queue: array<RespSlot>
    var qHead: nat
    var qTail: nat
    var expected: U32
    var writing: bool               // what epoll reports for the descriptor

    ghost var late: bool            // whether a read event reported before may still come
    ghost var carry: seq<Byte>      // the unscanned bytes between two reads
    ghost var asked: seq<Option<Request>>
    ghost var queued: seq<Queued>
    ghost var accepted: seq<Byte>

    /** The occupied slots from head to tail. */
    ghost function Pending(): seq<RespSlot>
      reads this, queue
      requires queue.Length == DEPTH && qHead < DEPTH && qTail < DEPTH
    {
      View(queue[..], qHead, qTail)
    }

    ghost predicate Valid()
      reads this, queue
    {
      && body.Length == BODY_SIZE && queue.Length == DEPTH
      && bodyLength <= BODY_SIZE && qHead < DEPTH && qTail < DEPTH
      && Disciplined(Pending())
    }

    /** The read buffer holds what the last read left over. */
    ghost predicate Settled()
      reads this, body
      requires bodyLength <= body.Length
    {
      carry == body[..bodyLength]
    }

    ghost function Abs(): Session
      reads this, queue
      requires Valid()
    {
      Session(true, nextReqSeq, expected, Pending(), writing, late, carry, asked, queued, accepted)
    }

    constructor (fd: int)
      ensures socket == fd
      ensures Valid() && Settled() && fresh(body) && fresh(queue) && Abs() == FRESH
    {
      socket := fd;
      body := new Byte[BODY_SIZE](_ => 0);
      queue := new RespSlot[DEPTH](_ => RespSlot([], 0));
      bodyLength, nextReqSeq, qHead, qTail, expected := 0, 0, 0, 0, 0;
      writing, late, carry, asked, queued, accepted := false, false, [], [], [], [];
    }

    method RingFull() returns (full: bool)
      requires Valid()
      ensures full <==> |Pending()| == DEPTH - 1
    {
      ViewAppend(queue[..], qHead, qTail, queue[qTail]);
      full := Wrap(qTail) == qHead;
    }

    /** A response is written into the tail slot, and the descriptor is switched to writing. */
    method PutResponse(frame: seq<Byte>, ghost seqNo: U32, ghost reply: Reply, ghost late: bool)
      requires Valid() && |Pending()| < DEPTH - 1 && frame == Wire(reply)
      modifies this`qTail, this`queued, this`writing, this`late, queue
      ensures Valid() && Abs() == Enqueue(old(Abs()), seqNo, reply, late)
    {
      ghost var buf := queue[..];
      UnsentAppend(Pending(), frame);
      ViewAppend(buf, qHead, qTail, RespSlot(frame, 0));
      queue[qTail] := RespSlot(frame, 0);
      qTail := Wrap(qTail);
      queued := queued + [Queued(seqNo, reply)];
      writing, this.late := true, late;
      assert queue[..] == buf[old(qTail) := RespSlot(frame, 0)];
    }

    /** Collects the untouched slots at the head of the queue, at most three. */
    method Gather() returns (iov: seq<seq<Byte>>)
      requires Valid()
      ensures |iov| == Gathered(Pending(), BATCH) && Flat(iov) == Offered(Pending(), |iov|)
    {
      iov := [];
      var scan: nat, i: nat := qHead, 0;
      ghost var p := Pending();
      while i < BATCH && scan != qTail
        invariant i <= BATCH && scan < DEPTH && i == |iov| && GatheredSoFar(p, iov)
        invariant View(queue[..], scan, qTail) == p[i..]
      {
        ViewStep(queue[..], scan, qTail, p, i);
        if queue[scan].sent != 0 {
          break;
        }
        GatheredMore(p, iov);
        iov := iov + [queue[scan].frame];
        scan := Wrap(scan);
        i := i + 1;
      }
      GatheredIs(p, BATCH, i);
    }

    /** The head slot is overwritten. */
    method SetHead(slot: RespSlot)
      requires Valid() && qHead != qTail
      modifies queue
      ensures View(queue[..], Wrap(qHead), qTail) == old(Pending())[1..]
      ensures Pending() == [slot] + old(Pending())[1..]
    {
      ghost var buf := queue[..];
      ViewHead(buf, qHead, qTail, slot);
      queue[qHead] := slot;
      assert queue[..] == buf[qHead := slot];
    }

    /** The head slot is fully sent: it is marked so and leaves the queue. */
    method DropHead()
      requires Valid() && qHead != qTail
      modifies this`qHead, queue
      ensures Valid() && Pending() == old(Pending())[1..]
    {
      SetHead(RespSlot(queue[qHead].frame, |queue[qHead].frame|));
      qHead := Wrap(qHead);
    }

    /** The head slot is sent a little further. */
    method BumpHead(n: nat)
      requires Valid() && qHead != qTail
      requires var s := Pending()[0]; s.sent + n < |s.frame|
      modifies queue
      ensures Valid()
      ensures var s := old(Pending())[0]; Pending() == [RespSlot(s.frame, s.sent + n)] + old(Pending())[1..]
    {
      ghost var p := Pending();
      ViewFirst(queue[..], qHead, qTail);
      SetHead(RespSlot(queue[qHead].frame, queue[qHead].sent + n));
      DisciplinedHead(p, Pending()[0]);
    }

    /** Moves the head of the queue over the bytes the kernel took. */
    method AdvanceHead(total: nat)
      requires Valid() && total <= |Unsent(Pending())|
      modifies this`qHead, queue
      ensures Valid() && Pending() == Advance(old(Pending()), total)
    {
      var sent: nat := total;
      while sent > 0 && qHead != qTail
        invariant Valid() && sent <= |Unsent(Pending())|
        invariant Advance(Pending(), sent) == Advance(old(Pending()), total)
      {
        ghost var p := Pending();
        ViewHead(queue[..], qHead, qTail, queue[qHead]);
        var remaining := |queue[qHead].frame| - queue[qHead].sent;
        if sent >= remaining {
          DropHead();
          sent := sent - remaining;
          assert Unsent(p) == p[0].frame[p[0].sent..] + Unsent(p[1..]);
        } else {
          BumpHead(sent);
          sent := 0;
          break;
        }
      }
    }

    /** The kernel took these bytes. */
    method Consume(total: nat, ghost bytes: seq<Byte>)
      requires Valid() && total <= |Unsent(Pending())|
      modifies this`qHead, this`accepted, queue
      ensures Valid() && Pending() == Advance(old(Pending()), total) && accepted == old(accepted) + bytes
    {
      AdvanceHead(total);
      accepted := accepted + bytes;
    }

    /** Vectored writes until the queue is empty, its first slot is partly sent, or the kernel takes
        nothing. */
    method DrainQueue(kernel: Kernel) returns (sentAny: bool, fatal: bool)
      requires Valid()
      modifies this`qHead, this`accepted, queue
      ensures Valid()
      ensures Drained(Pending(), accepted, sentAny, fatal)
           == var d := Drain(old(Pending()), kernel, 0);
              Drained(d.pending, old(accepted) + d.accepted, d.sentAny, d.fatal)
    {
      ghost var all, taken := Drain(Pending(), kernel, 0), [];
      var calls := 0;
      sentAny, fatal := false, false;
      while qHead != qTail
        invariant Valid() && accepted == old(accepted) + taken && !fatal
        invariant DrainedSoFar(all, Pending(), kernel, calls, taken, sentAny)
        decreases |Unsent(Pending())|
      {
        ghost var p := Pending();
        var iov := Gather();
        if |iov| == 0 {
          break;
        }
        var outcome, offered := kernel(calls), |Flat(iov)|;
        if outcome.Took? && Min(outcome.n, offered) > 0 {
          var total := Min(outcome.n, offered);
          assert Flat(iov)[..total] == Taken(p, outcome);
          DrainStep(all, p, kernel, calls, taken, sentAny, total);
          Assoc(old(accepted), taken, Flat(iov)[..total]);
          sentAny := true;
          taken := taken + Flat(iov)[..total];
          Consume(total, Flat(iov)[..total]);
          calls := calls + 1;
        } else if outcome.Fatal? {
          fatal := true;
          return;
        } else {
          break;
        }
      }
    }

    /** The write handler: the queue is drained, and an empty one switches the descriptor back to reading. */
    method HandlerWrite(kernel: Kernel) returns (sentAny: bool, fatal: bool)
      requires Valid()
      modifies this`qHead, this`accepted, this`writing, queue
      ensures Valid() && Abs() == AfterDrain(old(Abs()), kernel)
      ensures var d := Drain(old(Pending()), kernel, 0); sentAny == d.sentAny && fatal == d.fatal
    {
      sentAny, fatal := DrainQueue(kernel);
      if !fatal && qHead == qTail {
        writing := false;
      }
    }

    /** The write event of a session: it survives when something was sent and nothing failed, and then
        forgets its unscanned bytes and waits for something to read. */
    method WriteEvent(kernel: Kernel) returns (survives: bool)
      requires Valid() && Settled()
      modifies this`qHead, this`accepted, this`bodyLength, this`carry, this`writing, this`late, queue
      ensures Valid() && Settled() && survives == Survives(old(Abs()), kernel)
      ensures Abs() == if survives then AfterWrite(old(Abs()), kernel) else AfterDrain(old(Abs()), kernel)
    {
      var sentAny, fatal := HandlerWrite(kernel);
      survives := sentAny && !fatal;
      if survives {
        bodyLength := 0;
        carry := [];
        writing, late := false, false;
      }
    }

    /** Fresh bytes are read in behind the unscanned ones. */
    method Append(bytes: seq<Byte>)
      requires Valid() && Settled() && bodyLength + |bytes| <= BODY_SIZE
      modifies this`bodyLength, body
      ensures Valid() && Abs() == old(Abs()) && body[..bodyLength] == carry + bytes
    {
      CopyInto(bytes, body, bodyLength);
      bodyLength := bodyLength + |bytes|;
      assert unchanged(queue) && Pending() == old(Pending());
    }

    /** The unscanned bytes move to the front of the buffer; their number goes through a uint8_t, which
        loses nothing because a scan leaves at most one byte. */
    method Compact(pos: nat)
      requires Valid() && pos <= bodyLength && bodyLength - pos <= 1
      modifies this`bodyLength, this`carry, body
      ensures Valid() && Settled() && bodyLength == old(bodyLength) - pos
      ensures Abs() == old(Abs()).(body := old(body[pos..bodyLength]))
    {
      ghost var rest := body[pos..bodyLength];
      if pos > 0 {
        var n := (bodyLength - pos) % 256;
        forall i | 0 <= i < n {
          body[i] := body[pos + i];
        }
        bodyLength := bodyLength - pos;
      }
      carry := rest;
      assert body[..bodyLength] == rest;
      assert unchanged(queue) && Pending() == old(Pending());
    }
  }
}
