// The response queue of a session: what its ring holds, what one write call does to it under any
// behaviour of the kernel, and when a write call can make progress at all.

module ResponseRing {
  import opened Bytes
  import opened Responses
  import opened Seqs

  const DEPTH := 64   // ring slots; one stays free, so at most 63 are occupied
  const BATCH := 3    // slots aggregated in one vectored write

  /** One slot: the frame it holds and how much of it has been sent. */
  datatype RespSlot = RespSlot(frame: seq<Byte>, sent: nat)

  /** What a vectored write answers. More than was offered counts as all of it. */
  datatype WriteOutcome = Took(n: nat) | WouldBlock | Fatal
  type Kernel = nat -> WriteOutcome

  /** The occupied slots from head to tail of a ring buffer. */
  function View(buf: seq<RespSlot>, head: nat, tail: nat): (p: seq<RespSlot>)
    requires |buf| == DEPTH && head < DEPTH && tail < DEPTH
    ensures |p| == (if head <= tail then tail - head else tail - head + DEPTH) < DEPTH
  {
    if head <= tail then buf[head..tail] else buf[head..] + buf[..tail]
  }

  function Wrap(i: nat): (r: nat)
    requires i < DEPTH
    ensures r < DEPTH && r == if i == DEPTH - 1 then 0 else i + 1
  {
    (i + 1) % DEPTH
  }

  /** Filling the tail slot of a ring that is not full appends. */
  lemma ViewAppend(buf: seq<RespSlot>, head: nat, tail: nat, s: RespSlot)
    requires |buf| == DEPTH && head < DEPTH && tail < DEPTH
    ensures Wrap(tail) == head <==> |View(buf, head, tail)| == DEPTH - 1
    ensures Wrap(tail) != head ==> View(buf[tail := s], head, Wrap(tail)) == View(buf, head, tail) + [s]
  {
  }

  lemma ViewFirst(buf: seq<RespSlot>, head: nat, tail: nat)
    requires |buf| == DEPTH && head < DEPTH && tail < DEPTH && head != tail
    ensures View(buf, head, tail) == [buf[head]] + View(buf, Wrap(head), tail)
  {
    if head < tail {
      assert buf[head..tail] == [buf[head]] + buf[head + 1..tail];
    } else {
      assert buf[head..] == [buf[head]] + buf[head + 1..];
      assert ([buf[head]] + buf[head + 1..]) + buf[..tail] == [buf[head]] + (buf[head + 1..] + buf[..tail]);
    }
  }

  /** Touching the head slot does not change the slots behind it. */
  lemma ViewRest(buf: seq<RespSlot>, head: nat, tail: nat, s: RespSlot)
    requires |buf| == DEPTH && head < DEPTH && tail < DEPTH && head != tail
    ensures View(buf[head := s], Wrap(head), tail) == View(buf, Wrap(head), tail)
  {
    var b := buf[head := s];
    if head < tail {
      assert b[head + 1..tail] == buf[head + 1..tail];
    } else {
      assert b[head + 1..] == buf[head + 1..] && b[..tail] == buf[..tail];
    }
  }

  lemma ViewHead(buf: seq<RespSlot>, head: nat, tail: nat, s: RespSlot)
    requires |buf| == DEPTH && head < DEPTH && tail < DEPTH && head != tail
    ensures View(buf, head, tail)[0] == buf[head]
    ensures View(buf[head := s], Wrap(head), tail) == View(buf, head, tail)[1..]
    ensures View(buf[head := s], head, tail) == [s] + View(buf, head, tail)[1..]
  {
    ViewFirst(buf, head, tail);
    ViewRest(buf, head, tail, s);
    ViewFirst(buf[head := s], head, tail);
  }

  // --- The queue as a sequence ---

  predicate SlotOk(s: RespSlot) { 4 <= |s.frame| <= FRAME_MAX && s.sent < |s.frame| }

  /** Every slot has something left to send, and only the first may be partly sent. */
  predicate Disciplined(p: seq<RespSlot>) {
    && (forall i :: 0 <= i < |p| ==> SlotOk(p[i]))
    && (forall i :: 0 < i < |p| ==> p[i].sent == 0)
  }

  /** What a session's ring can hold. */
  type Ring = p: seq<RespSlot> | Disciplined(p) && |p| < DEPTH witness []

  predicate PartlySent(p: seq<RespSlot>) { p != [] && p[0].sent > 0 }

  /** The bytes still to be sent. */
  function Unsent(p: seq<RespSlot>): seq<Byte>
    requires Disciplined(p)
  {
    if p == [] then [] else p[0].frame[p[0].sent..] + Unsent(p[1..])
  }

  lemma {:induction false} UnsentAppend(p: seq<RespSlot>, frame: seq<Byte>)
    requires Disciplined(p) && 4 <= |frame| <= FRAME_MAX
    ensures Disciplined(p + [RespSlot(frame, 0)])
    ensures Unsent(p + [RespSlot(frame, 0)]) == Unsent(p) + frame
  {
    var q := p + [RespSlot(frame, 0)];
    if p == [] {
      assert q[1..] == [] && frame[0..] == frame;
      assert Unsent(q) == frame + Unsent(q[1..]);
    } else {
      assert q[1..] == p[1..] + [RespSlot(frame, 0)];
      UnsentAppend(p[1..], frame);
    }
  }

  /** How many untouched slots at the front are aggregated. */
  function Gathered(p: seq<RespSlot>, limit: nat): (g: nat)
    ensures g <= limit && g <= |p|
  {
    if limit == 0 || p == [] || p[0].sent != 0 then 0 else 1 + Gathered(p[1..], limit - 1)
  }

  /** The bytes offered by the first g slots. */
  function Offered(p: seq<RespSlot>, g: nat): seq<Byte>
    requires g <= |p|
  {
    if g == 0 then [] else p[0].frame + Offered(p[1..], g - 1)
  }

  lemma {:induction false} OfferedIsUnsent(p: seq<RespSlot>, g: nat)
    requires Disciplined(p) && g <= |p| && !PartlySent(p)
    ensures Unsent(p) == Offered(p, g) + Unsent(p[g..])
  {
    if g == 0 {
      assert p[0..] == p;
    } else {
      OfferedIsUnsent(p[1..], g - 1);
      assert p[1..][g - 1..] == p[g..];
      assert p[0].frame[0..] == p[0].frame;
      Assoc(p[0].frame, Offered(p[1..], g - 1), Unsent(p[g..]));
    }
  }

  /** The bookkeeping after n bytes were taken: whole slots leave, the one the count ends in stays. */
  function Advance(p: seq<RespSlot>, n: nat): seq<RespSlot>
    requires Disciplined(p)
  {
    if n == 0 || p == [] then p
    else if n >= |p[0].frame| - p[0].sent then Advance(p[1..], n - (|p[0].frame| - p[0].sent))
    else [RespSlot(p[0].frame, p[0].sent + n)] + p[1..]
  }

  /** The bookkeeping forgets exactly the bytes that were taken. */
  lemma {:induction false} AdvanceDrops(p: seq<RespSlot>, n: nat)
    requires Disciplined(p) && n <= |Unsent(p)|
    ensures Disciplined(Advance(p, n)) && |Advance(p, n)| <= |p|
    ensures Unsent(Advance(p, n)) == Unsent(p)[n..]
  {
    if n > 0 && p != [] {
      var left := p[0].frame[p[0].sent..];
      if n >= |left| {
        AdvanceDrops(p[1..], n - |left|);
      } else {
        var q := Advance(p, n);
        assert q[1..] == p[1..];
        assert q[0].frame[q[0].sent..] == left[n..];
      }
    }
  }

  function Min(a: nat, b: nat): nat { if a < b then a else b }

  /** The bytes one vectored write takes from the queue; none when it fails or would block. */
  function Taken(p: seq<RespSlot>, o: WriteOutcome): seq<Byte> {
    var offer := Offered(p, Gathered(p, BATCH));
    if o.Took? then offer[..Min(o.n, |offer|)] else []
  }

  lemma TakenIsUnsent(p: seq<RespSlot>, o: WriteOutcome)
    requires Disciplined(p)
    ensures |Taken(p, o)| <= |Unsent(p)| && Taken(p, o) == Unsent(p)[..|Taken(p, o)|]
    ensures PartlySent(p) ==> Taken(p, o) == []
  {
    if !PartlySent(p) {
      var g := Gathered(p, BATCH);
      OfferedIsUnsent(p, g);
    }
  }

  /** The result of a write call: what stays queued, the bytes the kernel took, whether it took any,
      and whether it failed. */
  datatype Drained = Drained(pending: seq<RespSlot>, accepted: seq<Byte>, sentAny: bool, fatal: bool)

  /** The drain loop; kernel(i) answers the i-th vectored write. */
  function Drain(p: seq<RespSlot>, kernel: Kernel, i: nat): Drained
    requires Disciplined(p)
    decreases |Unsent(p)|
  {
    if p == [] || Gathered(p, BATCH) == 0 then Drained(p, [], false, false)
    else
      var bytes := Taken(p, kernel(i));
      if bytes == [] then Drained(p, [], false, kernel(i).Fatal?)
      else
        TakenIsUnsent(p, kernel(i));
        AdvanceDrops(p, |bytes|);
        var d := Drain(Advance(p, |bytes|), kernel, i + 1);
        Drained(d.pending, bytes + d.accepted, true, d.fatal)
  }

  /** Whatever the kernel does: the bytes it took, followed by what is still queued, are the bytes
      that were queued; nothing is lost, doubled or reordered, and the queue stays disciplined. */
  ghost predicate Conserves(p: seq<RespSlot>, d: Drained)
    requires Disciplined(p)
  {
    && Disciplined(d.pending) && |d.pending| <= |p|
    && d.accepted + Unsent(d.pending) == Unsent(p)
    && (d.sentAny <==> d.accepted != [])
  }

  lemma ConservesStep(p: seq<RespSlot>, n: nat, d: Drained)
    requires Disciplined(p) && 0 < n <= |Unsent(p)| && Disciplined(Advance(p, n))
    requires Conserves(Advance(p, n), d)
    ensures Conserves(p, Drained(d.pending, Unsent(p)[..n] + d.accepted, true, d.fatal))
  {
    AdvanceDrops(p, n);
    CutTwice(Unsent(p), n, d.accepted, Unsent(d.pending));
  }

  /** One write of the drain loop that took something. */
  lemma DrainGoesOn(p: seq<RespSlot>, kernel: Kernel, i: nat, n: nat)
    requires Disciplined(p) && p != [] && Gathered(p, BATCH) != 0 && 0 < n == |Taken(p, kernel(i))|
    ensures n <= |Unsent(p)| && Disciplined(Advance(p, n)) && |Unsent(Advance(p, n))| < |Unsent(p)|
    ensures Taken(p, kernel(i)) == Unsent(p)[..n]
    ensures var d := Drain(Advance(p, n), kernel, i + 1);
            Drain(p, kernel, i) == Drained(d.pending, Taken(p, kernel(i)) + d.accepted, true, d.fatal)
  {
    TakenIsUnsent(p, kernel(i));
    AdvanceDrops(p, n);
  }

  lemma DrainStops(p: seq<RespSlot>, kernel: Kernel, i: nat)
    requires Disciplined(p) && (p == [] || Gathered(p, BATCH) == 0 || |Taken(p, kernel(i))| == 0)
    ensures Conserves(p, Drain(p, kernel, i))
  {
  }

  lemma {:induction false} DrainConserves(p: seq<RespSlot>, kernel: Kernel, i: nat)
    requires Disciplined(p)
    ensures Conserves(p, Drain(p, kernel, i))
    decreases |Unsent(p)|
  {
    var n := |Taken(p, kernel(i))|;
    if p == [] || Gathered(p, BATCH) == 0 || n == 0 {
      DrainStops(p, kernel, i);
    } else {
      DrainGoesOn(p, kernel, i, n);
      DrainConserves(Advance(p, n), kernel, i + 1);
      ConservesStep(p, n, Drain(Advance(p, n), kernel, i + 1));
    }
  }

  /** A partly sent first frame is never resumed: no kernel gets another byte out of the queue. */
  lemma PartlySentIsStuck(p: seq<RespSlot>, kernel: Kernel, i: nat)
    requires Disciplined(p) && PartlySent(p)
    ensures Drain(p, kernel, i) == Drained(p, [], false, false)
  {
  }

  /** A write call can send something if and only if the queue is not empty and its first frame is
      untouched. */
  lemma CanSendIff(p: seq<RespSlot>)
    requires Disciplined(p)
    ensures (exists kernel: Kernel :: Drain(p, kernel, 0).accepted != []) <==> p != [] && !PartlySent(p)
  {
    if p != [] && !PartlySent(p) {
      var kernel: Kernel := _ => Took(1);
      assert |Offered(p, Gathered(p, BATCH))| >= |p[0].frame|;
      assert Taken(p, kernel(0)) != [];
      assert Drain(p, kernel, 0).accepted != [];
    }
  }

  /** A write on the ring p that is answered o takes something. */
  predicate TakesSome(p: seq<RespSlot>, o: WriteOutcome) { p != [] && !PartlySent(p) && o.Took? && o.n > 0 }

  lemma TakesSomeIff(p: seq<RespSlot>, o: WriteOutcome)
    requires Disciplined(p)
    ensures Taken(p, o) != [] <==> TakesSome(p, o)
  {
    if p != [] && !PartlySent(p) {
      assert |Offered(p, Gathered(p, BATCH))| >= |p[0].frame|;
    }
  }

  /** A write call sends something if and only if its first write takes something. */
  lemma SendsIff(p: seq<RespSlot>, kernel: Kernel, i: nat)
    requires Disciplined(p)
    ensures Drain(p, kernel, i).sentAny <==> TakesSome(p, kernel(i))
  {
    TakesSomeIff(p, kernel(i));
  }

  /** The call, which asks the kernel for the i-th time next, comes to make k further writes and one
      more: each of the k took something, and an untouched frame is left in front. */
  predicate Reaches(p: seq<RespSlot>, kernel: Kernel, i: nat, k: nat)
    requires Disciplined(p)
    decreases k
  {
    if k == 0 then p != [] && !PartlySent(p)
    else
      TakesSome(p, kernel(i))
      && (TakenIsUnsent(p, kernel(i));
          AdvanceDrops(p, |Taken(p, kernel(i))|);
          Reaches(Advance(p, |Taken(p, kernel(i))|), kernel, i + 1, k - 1))
  }

  /** It comes to make that write, and the kernel answers it with an error. */
  predicate FailsAt(p: seq<RespSlot>, kernel: Kernel, i: nat, k: nat)
    requires Disciplined(p)
  {
    Reaches(p, kernel, i, k) && kernel(i + k).Fatal?
  }

  lemma FailsLater(p: seq<RespSlot>, kernel: Kernel, i: nat, k: nat)
    requires Disciplined(p) && TakesSome(p, kernel(i)) && k > 0
    ensures var q := Advance(p, |Taken(p, kernel(i))|);
            Disciplined(q) && (FailsAt(p, kernel, i, k) <==> FailsAt(q, kernel, i + 1, k - 1))
  {
    TakenIsUnsent(p, kernel(i));
    AdvanceDrops(p, |Taken(p, kernel(i))|);
    assert i + 1 + (k - 1) == i + k;
  }

  /** A write call fails if and only if a write that it comes to make is answered with an error. */
  lemma {:induction false} FailsIff(p: seq<RespSlot>, kernel: Kernel, i: nat)
    requires Disciplined(p)
    ensures Drain(p, kernel, i).fatal <==> exists k: nat :: FailsAt(p, kernel, i, k)
    decreases |Unsent(p)|
  {
    TakesSomeIff(p, kernel(i));
    if TakesSome(p, kernel(i)) {
      var n := |Taken(p, kernel(i))|;
      TakenIsUnsent(p, kernel(i));
      AdvanceDrops(p, n);
      var q, next := Advance(p, n), i + 1;
      FailsIff(q, kernel, next);
      if k: nat :| FailsAt(q, kernel, next, k) {
        FailsLater(p, kernel, i, k + 1);
        assert FailsAt(p, kernel, i, k + 1);
      }
      if k: nat :| FailsAt(p, kernel, i, k) {
        FailsLater(p, kernel, i, k);
      }
    } else if p != [] && !PartlySent(p) {
      assert FailsAt(p, kernel, i, 0) <==> kernel(i).Fatal?;
    }
  }

  /** The first write takes something, and no write that the call comes to make fails. */
  ghost predicate GoesWell(p: seq<RespSlot>, kernel: Kernel)
    requires Disciplined(p)
  {
    TakesSome(p, kernel(0)) && forall k: nat :: !FailsAt(p, kernel, 0, k)
  }

  lemma DrainGoesWellIff(p: seq<RespSlot>, kernel: Kernel)
    requires Disciplined(p)
    ensures Drain(p, kernel, 0).sentAny && !Drain(p, kernel, 0).fatal <==> GoesWell(p, kernel)
  {
    SendsIff(p, kernel, 0);
    FailsIff(p, kernel, 0);
  }

  /** Each write of the call took a positive number of bytes that ends at the end of a frame. */
  ghost predicate WholeFrames(p: seq<RespSlot>, kernel: Kernel, i: nat)
    requires Disciplined(p)
    decreases |p|
  {
    p == []
    || exists j :: 0 < j <= Gathered(p, BATCH) && Taken(p, kernel(i)) == Offered(p, j)
                   && WholeFrames(p[j..], kernel, i + 1)
  }

  lemma {:induction false} AdvanceWhole(p: seq<RespSlot>, j: nat)
    requires Disciplined(p) && !PartlySent(p) && j <= |p|
    ensures Advance(p, |Offered(p, j)|) == p[j..]
  {
    if j > 0 {
      AdvanceWhole(p[1..], j - 1);
      assert p[j..] == p[1..][j - 1..];
    }
  }

  /** The prefixes of an untouched queue that end at a frame, and the others. */
  lemma {:induction false} AdvancePart(p: seq<RespSlot>, n: nat, g: nat) returns (j: nat)
    requires Disciplined(p) && !PartlySent(p) && g <= |p| && n <= |Offered(p, g)|
    requires !PartlySent(Advance(p, n))
    ensures j <= g && Offered(p, g)[..n] == Offered(p, j)
  {
    if n == 0 {
      j := 0;
    } else {
      var w := |p[0].frame|;
      assert n >= w;
      assert Offered(p, g)[..n] == p[0].frame + Offered(p[1..], g - 1)[..n - w];
      j := AdvancePart(p[1..], n - w, g - 1);
      j := j + 1;
    }
  }

  /** A write call empties the queue exactly when every write it makes ends at the end of a frame. */
  lemma {:induction false} DrainEmptiesIff(p: seq<RespSlot>, kernel: Kernel, i: nat)
    requires Disciplined(p)
    ensures Drain(p, kernel, i).pending == [] <==> WholeFrames(p, kernel, i)
    decreases |Unsent(p)|
  {
    if p != [] && Gathered(p, BATCH) != 0 {
      var g, bytes := Gathered(p, BATCH), Taken(p, kernel(i));
      assert forall j :: 0 < j <= g ==> |Offered(p, j)| >= |p[0].frame|;
      if bytes != [] {
        TakenIsUnsent(p, kernel(i));
        var q := Advance(p, |bytes|);
        AdvanceDrops(p, |bytes|);
        DrainEmptiesIff(q, kernel, i + 1);
        if !PartlySent(q) {
          var j := AdvancePart(p, |bytes|, g);
          AdvanceWhole(p, j);
          forall k | 0 < k <= g && Offered(p, k) == bytes ensures p[k..] == q {
            AdvanceWhole(p, k);
          }
        } else {
          forall k | 0 < k <= g ensures Offered(p, k) != bytes {
            AdvanceWhole(p, k);
          }
        }
      }
    }
  }
}
