// Short runs from the start state that reach the states the other files warn about, with the two
// commands the gateway registers: 02 answers on the spot, 06 is left to the background thread.

module Witnesses {
  import opened Bytes
  import opened Requests
  import opened Responses
  import opened Scanner
  import opened ResponseRing
  import opened Router
  import opened Gateway
  import opened Histories
  import opened Accounting
  import opened Steps
  import opened Gaps
  import opened Inputs

  const COMMANDS: seq<Entry> := [Entry(0x02, 0, 0, false), Entry(0x06, 2, 4, true)]
  const LIMIT := 4096
  const BEGIN := Start(COMMANDS, LIMIT)
  const VERSION := Request(0x02, [])
  const TAG := Request(0x06, [0, 1])
  const RAN := Outcome(0, [1, 2, 0])
  const REPLY: Reply := Success(0x02, [1, 2, 0])

  /** What every frame meets when the socket takes what it is given, or is full. */
  function Meets(send: SendOutcome): nat -> Env { _ => Env(None, send, RAN) }

  /** The two sample requests on the wire. */
  lemma SampleFrames()
    ensures Fits(VERSION, SCANNER_LEN_MAX) && Frame(VERSION) == [0x40, 0x02, 0x02, 0xBC]
    ensures Fits(TAG, SCANNER_LEN_MAX) && Frame(TAG) == [0x40, 0x04, 0x06, 0x00, 0x01, 0xB5]
  {
    var v: seq<Byte>, t: seq<Byte> := [0x40, 0x02, 0x02], [0x40, 0x04, 0x06, 0x00, 0x01];
    assert FrameBody(VERSION) == v && FrameBody(TAG) == t;
    assert SumTo(v, 3) == SumTo(v, 2) + 2 == SumTo(v, 1) + 4 == SumTo(v, 0) + 0x44;
    assert SumTo(t, 5) == SumTo(t, 4) + 1 == SumTo(t, 3) + 1 == SumTo(t, 2) + 7 == SumTo(t, 1) + 11 == SumTo(t, 0) + 75;
  }

  /** The reply to the request for the version, and an error of the handler for tags, on the wire. */
  lemma SampleReplies()
    ensures Wire(REPLY) == [0xF0, 0x05, 0x02, 0x01, 0x02, 0x00, 0x06]
    ensures Wire(Failure(0x06, 0x04)) == [0xF4, 0x03, 0x06, 0x04, 0xFF]
  {
    var v: seq<Byte>, t: seq<Byte> := [0xF0, 0x05, 0x02, 0x01, 0x02, 0x00], [0xF4, 0x03, 0x06, 0x04];
    WireIs(REPLY);
    WireIs(Failure(0x06, 0x04));
    assert Unsealed(REPLY) == v && Unsealed(Failure(0x06, 0x04)) == t;
    assert SumTo(v, 6) == SumTo(v, 5) == SumTo(v, 4) + 2 == SumTo(v, 3) + 3 == SumTo(v, 2) + 5 == SumTo(v, 1) + 10 == SumTo(v, 0) + 250;
    assert SumTo(t, 4) == SumTo(t, 3) + 4 == SumTo(t, 2) + 10 == SumTo(t, 1) + 13 == SumTo(t, 0) + 257;
  }

  lemma ScanFrame(b: seq<Byte>, pos: nat, r: Request)
    requires Fits(r, SCANNER_LEN_MAX) && pos + |Frame(r)| <= |b| && b[pos..pos + |Frame(r)|] == Frame(r)
    ensures var end := pos + |Frame(r)|;
            && Scan(b, pos) == Found([Dispatch(pos, |Frame(r)|)] + Scan(b, end).events, Scan(b, end).stop)
            && Parsed(b[pos..end]) == r
  {
    var w := Frame(r);
    FrameParsed(r, SCANNER_LEN_MAX);
    assert b[pos] == w[0] && b[pos + 1] == w[1];
    ScanAtHead(b, pos);
  }

  lemma ScanOne(r: Request)
    requires Fits(r, SCANNER_LEN_MAX)
    ensures var b := Frame(r);
            && Scan(b, 0) == Found([Dispatch(0, |b|)], |b|) && Parsed(b[0..|b|]) == r
            && AllIn(b, Scan(b, 0).events) && Heard(b, Scan(b, 0).events) == [Some(r)]
  {
    var b := Frame(r);
    assert b[0..|b|] == b;
    ScanFrame(b, 0, r);
  }

  lemma ScanTwo(q: Request, r: Request)
    requires Fits(q, SCANNER_LEN_MAX) && Fits(r, SCANNER_LEN_MAX)
    ensures var b, m := Frame(q) + Frame(r), |Frame(q)|;
            && Scan(b, 0) == Found([Dispatch(0, m), Dispatch(m, |Frame(r)|)], |b|)
            && Parsed(b[0..m]) == q && Parsed(b[m..m + |Frame(r)|]) == r
  {
    var b, m := Frame(q) + Frame(r), |Frame(q)|;
    assert b[0..m] == Frame(q) && b[m..m + |Frame(r)|] == Frame(r);
    ScanFrame(b, 0, q);
    ScanFrame(b, m, r);
  }

  // --- Steps of the runs below ---

  /** These bytes arrive on connection 1, and the socket takes what is sent or is full. */
  function Arrives(b: seq<Byte>, send: SendOutcome): Step { OnReadable(1, true, Data(b), Meets(send)) }

  /** The socket has room for all that is offered. */
  const ALL: Kernel := _ => Took(1000)

  lemma {:induction false} ExecSnoc(g: Gateway, steps: seq<Step>, last: Step)
    ensures Exec(g, steps + [last]) == Apply(Exec(g, steps), last)
    decreases |steps|
  {
    if steps == [] {
      assert steps + [last] == [last] && [last][1..] == [];
    } else {
      assert (steps + [last])[1..] == steps[1..] + [last];
      ExecSnoc(Apply(g, steps[0]), steps[1..], last);
    }
  }

  lemma ExecOne(g: Gateway, step: Step)
    ensures Exec(g, [step]) == Apply(g, step)
  {
    assert [step][1..] == [];
  }

  /** The connection after its first read event came. */
  const FIRST := Opened(BEGIN, 1)

  /** The first read, when its scan leaves at most one byte. */
  lemma FirstRead(b: seq<Byte>, send: SendOutcome, es: seq<Event>, stop: nat)
    requires 0 < |b| <= BODY_SIZE && Scan(b, 0) == Found(es, stop) && stop <= |b| <= stop + 1
    ensures AllIn(b, es)
    ensures var h := Events(FIRST, 1, b, es, Meets(send));
            1 in h.sessions && Exec(BEGIN, [Arrives(b, send)]) == SetBody(h, 1, b[stop..])
  {
    assert [] + b == b;
    ScanEventsIn(b, 0);
    FittingRead(BEGIN, 1, true, b, Meets(send));
    EventsKeepSessions(FIRST, 1, b, es, Meets(send));
    ExecOne(BEGIN, Arrives(b, send));
  }

  lemma EventsOne(g: Gateway, b: seq<Byte>, e: Event, env: nat -> Env)
    requires AllIn(b, [e])
    ensures Events(g, 1, b, [e], env) == OneEvent(g, 1, b, e, env(0))
  {
    assert [e][..0] == [];
  }

  lemma EventsTwo(g: Gateway, b: seq<Byte>, d: Event, e: Event, env: nat -> Env)
    requires AllIn(b, [d, e])
    ensures EventIn(b, [d, e][0]) && EventIn(b, [d, e][1])
    ensures Events(g, 1, b, [d, e], env) == OneEvent(OneEvent(g, 1, b, d, env(0)), 1, b, e, env(1))
  {
    var es := [d, e];
    assert es[..1] == [d] && AllIn(b, [d]);
    EventsOne(g, b, d, env);
    assert Events(g, 1, b, es, env) == OneEvent(Events(g, 1, b, es[..1], env), 1, b, es[1], env(1));
  }

  /** The request for the version is answered on the spot. */
  lemma VersionSynced(g: Gateway, send: SendOutcome, i: nat)
    requires g.table == COMMANDS && Live(g, 1)
    ensures IsSynced(g, 1, Call(VERSION, RAN), send, GoodFrame(g, 1, VERSION, Meets(send)(i)))
  {
    assert FirstMatch(COMMANDS, 0x02) == Some(COMMANDS[0]);
    assert GoodFrame(g, 1, VERSION, Meets(send)(i)) == Synced(g, 1, Call(VERSION, RAN), send);
    SyncedIs(g, 1, Call(VERSION, RAN), send);
  }

  /** The request for a tag is left to the background thread. */
  lemma TagFiled(g: Gateway, send: SendOutcome, i: nat)
    requires g.table == COMMANDS && Live(g, 1) && |g.slots| > 0 && !g.slots[0].valid
    ensures GoodFrame(g, 1, TAG, Meets(send)(i)) == File(Issue(g, 1, Some(TAG)), 0, 1, g.sessions[1].next, TAG)
  {
    assert COMMANDS[1..][0] == COMMANDS[1];
    assert FirstMatch(COMMANDS[1..], 0x06) == Some(COMMANDS[1]);
    assert FirstMatch(COMMANDS, 0x06) == Some(COMMANDS[1]);
    assert FirstFree(g.slots) == 0;
  }

  // --- A partly sent frame ---

  const ONE: Ring := [RespSlot(Wire(REPLY), 0)]

  /** The request for the version arrives while the socket is full. */
  lemma VersionQueued()
    ensures var h := Exec(BEGIN, [Arrives(Frame(VERSION), SendWouldBlock)]);
            Serving(h, 1) && h.sessions[1].writing && h.sessions[1].ring == ONE
  {
    var b := Frame(VERSION);
    SampleFrames();
    ScanOne(VERSION);
    FirstRead(b, SendWouldBlock, Scan(b, 0).events, |b|);
    EventsOne(FIRST, b, Dispatch(0, |b|), Meets(SendWouldBlock));
    VersionSynced(FIRST, SendWouldBlock, 0);
  }

  lemma OneByteTaken()
    ensures var d := Drain(ONE, _ => Took(1), 0); d.sentAny && !d.fatal && PartlySent(d.pending)
  {
    var kernel: Kernel := _ => Took(1);
    assert ONE[1..] == [];
    assert Offered(ONE, 1) == ONE[0].frame + Offered(ONE[1..], 0) == Wire(REPLY);
    assert |Taken(ONE, kernel(0))| == 1;
    PartlySentIsStuck(Advance(ONE, 1), kernel, 1);
  }

  /** The write event that follows takes one byte. */
  lemma PartlySentIsReached()
    ensures var h := Exec(BEGIN, [Arrives(Frame(VERSION), SendWouldBlock)] + [OnWritable(1, true, _ => Took(1))]);
            Serving(h, 1) && PartlySent(h.sessions[1].ring)
  {
    VersionQueued();
    OneByteTaken();
    ExecSnoc(BEGIN, [Arrives(Frame(VERSION), SendWouldBlock)], OnWritable(1, true, _ => Took(1)));
  }

  // --- Frames left behind ---

  const TWO: Ring := ONE + ONE

  lemma FirstQueued(g: Gateway)
    requires IsSynced(FIRST, 1, Call(VERSION, RAN), SendWouldBlock, g)
    ensures g.table == COMMANDS && Serving(g, 1) && g.sessions[1].ring == ONE && g.maxRequest == LIMIT
  {
  }

  lemma SecondQueued(g: Gateway, h: Gateway)
    requires Serving(g, 1) && g.sessions[1].ring == ONE && IsSynced(g, 1, Call(VERSION, RAN), SendWouldBlock, h)
    ensures Serving(h, 1) && h.sessions[1].ring == TWO && h.sessions[1].writing
  {
  }

  lemma VersionTwice()
    ensures var env := Meets(SendWouldBlock);
            var h := GoodFrame(GoodFrame(FIRST, 1, VERSION, env(0)), 1, VERSION, env(1));
            Serving(h, 1) && h.sessions[1].ring == TWO && h.sessions[1].writing
  {
    var env := Meets(SendWouldBlock);
    var g := GoodFrame(FIRST, 1, VERSION, env(0));
    VersionSynced(FIRST, SendWouldBlock, 0);
    FirstQueued(g);
    VersionSynced(g, SendWouldBlock, 1);
    SecondQueued(g, GoodFrame(g, 1, VERSION, env(1)));
  }

  /** Two requests for the version arrive while the socket is full. */
  lemma VersionsQueued()
    ensures var h := Exec(BEGIN, [Arrives(Frame(VERSION) + Frame(VERSION), SendWouldBlock)]);
            Serving(h, 1) && h.sessions[1].writing && h.sessions[1].ring == TWO
  {
    var m, b, env := |Frame(VERSION)|, Frame(VERSION) + Frame(VERSION), Meets(SendWouldBlock);
    SampleFrames();
    ScanTwo(VERSION, VERSION);
    FirstRead(b, SendWouldBlock, Scan(b, 0).events, |b|);
    EventsTwo(FIRST, b, Dispatch(0, m), Dispatch(m, m), env);
    VersionTwice();
  }

  /** The socket has room for the first of two frames. */
  const ROOM_FOR_ONE: Kernel := i => if i == 0 then Took(|Wire(REPLY)|) else WouldBlock

  lemma OneFrameTaken()
    ensures Disciplined(TWO)
    ensures Drain(TWO, ROOM_FOR_ONE, 0) == Drained(ONE, Wire(REPLY), true, false)
  {
    var w := Wire(REPLY);
    assert TWO[1..] == ONE && ONE[1..] == [];
    assert Offered(ONE, 1) == ONE[0].frame + Offered(ONE[1..], 0) == w;
    assert Offered(TWO, 2) == TWO[0].frame + Offered(TWO[1..], 1) == w + w;
    assert Gathered(TWO, BATCH) == 2;
    assert Taken(TWO, ROOM_FOR_ONE(0)) == w;
    assert Advance(TWO, |w|) == Advance(ONE, 0) == ONE;
    assert Taken(ONE, ROOM_FOR_ONE(1)) == [];
    assert w + [] == w;
  }

  /** The write event that follows leaves the second one in the ring and waits for something to read. */
  lemma FramesAreLeft()
    ensures var h := Exec(BEGIN, [Arrives(Frame(VERSION) + Frame(VERSION), SendWouldBlock)] + [OnWritable(1, true, ROOM_FOR_ONE)]);
            Serving(h, 1) && !h.sessions[1].writing && h.sessions[1].ring == ONE
  {
    VersionsQueued();
    OneFrameTaken();
    ExecSnoc(BEGIN, [Arrives(Frame(VERSION) + Frame(VERSION), SendWouldBlock)], OnWritable(1, true, ROOM_FOR_ONE));
  }

  // --- A forgotten head ---

  const REST: seq<Byte> := [0x02, 0x02, 0xBC]

  /** A request arrives, and the head of a second one behind it. */
  function HeadRun(send: SendOutcome): seq<Step> { [Arrives(Frame(VERSION) + [HEAD], send)] }

  lemma HeadWaits(send: SendOutcome)
    requires send.SentAll? || send.SendWouldBlock?
    ensures var h := Exec(BEGIN, HeadRun(send));
            && Serving(h, 1) && h.maxRequest == LIMIT && h.sessions[1].body == [HEAD]
            && h.sessions[1].asked == [Some(VERSION)]
            && if send.SentAll? then !h.sessions[1].writing else h.sessions[1].writing && h.sessions[1].ring == ONE
  {
    var m, b := |Frame(VERSION)|, Frame(VERSION) + [HEAD];
    SampleFrames();
    assert b[0..m] == Frame(VERSION) && b[m..] == [HEAD];
    ScanFrame(b, 0, VERSION);
    assert Scan(b, m) == Found([], m);
    FirstRead(b, send, [Dispatch(0, m)], m);
    EventsOne(FIRST, b, Dispatch(0, m), Meets(send));
    VersionSynced(FIRST, send, 0);
  }

  lemma HeadAndRest()
    ensures var b := [HEAD] + REST;
            AllIn(b, Scan(b, 0).events) && Heard(b, Scan(b, 0).events) == [Some(VERSION)]
  {
    SampleFrames();
    ScanOne(VERSION);
    assert [HEAD] + REST == Frame(VERSION);
  }

  /** When the first reply can be sent at once, no write event comes, and the second request is taken... */
  lemma TakenWithoutWrite()
    ensures AskedBy(Exec(BEGIN, HeadRun(SentAll) + [Arrives(REST, SentAll)]), 1) == [Some(VERSION), Some(VERSION)]
  {
    HeadWaits(SentAll);
    HeadAndRest();
    ExecSnoc(BEGIN, HeadRun(SentAll), Arrives(REST, SentAll));
    OwnRead(Exec(BEGIN, HeadRun(SentAll)), 1, true, REST, Meets(SentAll));
  }

  lemma AllTaken()
    ensures Disciplined(ONE)
    ensures var d := Drain(ONE, ALL, 0); d.sentAny && !d.fatal && d.pending == []
  {
    assert ONE[1..] == [];
    assert Offered(ONE, 1) == ONE[0].frame + Offered(ONE[1..], 0) == Wire(REPLY);
    assert Taken(ONE, ALL(0)) == Wire(REPLY);
    assert Advance(ONE, |Wire(REPLY)|) == Advance(ONE[1..], 0) == [];
    assert Drain([], ALL, 1) == Drained([], [], false, false);
  }

  function WriteRun(): seq<Step> { HeadRun(SendWouldBlock) + [OnWritable(1, true, ALL)] }

  lemma HeadForgotten()
    ensures var h := Exec(BEGIN, WriteRun());
            && Serving(h, 1) && !h.sessions[1].writing && h.maxRequest == LIMIT && h.sessions[1].body == []
            && h.sessions[1].asked == [Some(VERSION)]
  {
    HeadWaits(SendWouldBlock);
    AllTaken();
    ExecSnoc(BEGIN, HeadRun(SendWouldBlock), OnWritable(1, true, ALL));
  }

  lemma NothingInRest()
    ensures Scan(REST, 0) == Found([], 3)
  {
    assert Scan(REST, 3) == Found([], 3);
    assert Scan(REST, 2) == Scan(REST, 3) && Scan(REST, 1) == Scan(REST, 2);
  }

  /** ... when it has to be queued, the write event that sends it forgets the head, and the second request
      is lost from the same bytes, although the session goes on. */
  lemma LostWithWrite()
    ensures var h := Exec(BEGIN, WriteRun() + [Arrives(REST, SentAll)]);
            Serving(h, 1) && AskedBy(h, 1) == [Some(VERSION)]
  {
    HeadForgotten();
    NothingInRest();
    ExecSnoc(BEGIN, WriteRun(), Arrives(REST, SentAll));
    assert [] + REST == REST;
    OwnRead(Exec(BEGIN, WriteRun()), 1, true, REST, Meets(SentAll));
    assert Heard(REST, []) == [] && [Some(VERSION)] + [] == [Some(VERSION)];
  }

  // --- Requests that stay unanswered ---

  /** A request for a tag and one for the version in one read: the first is left to the background
      thread, the second is answered on the spot and overtakes it. */
  lemma OvertakenIsReached()
    ensures var h := Exec(BEGIN, [Arrives(Frame(TAG) + Frame(VERSION), SentAll)]);
            Serving(h, 1) && |h.slots| > 0 && Overtaken(h, 0)
  {
    var m, b, env := |Frame(TAG)|, Frame(TAG) + Frame(VERSION), Meets(SentAll);
    SampleFrames();
    ScanTwo(TAG, VERSION);
    FirstRead(b, SentAll, Scan(b, 0).events, |b|);
    EventsTwo(FIRST, b, Dispatch(0, m), Dispatch(m, |Frame(VERSION)|), env);
    TagFiled(FIRST, SentAll, 0);
    VersionSynced(GoodFrame(FIRST, 1, TAG, env(0)), SentAll, 1);
  }

  /** The request for the version with a wrong checksum. */
  const DAMAGED: seq<Byte> := [0x40, 0x02, 0x02, 0x00]

  lemma DamagedSum()
    ensures !Sealed(DAMAGED)
  {
    assert SumTo(DAMAGED, 4) == SumTo(DAMAGED, 3) == SumTo(DAMAGED, 2) + 2 == SumTo(DAMAGED, 1) + 4 == SumTo(DAMAGED, 0) + 0x44;
  }

  lemma DamagedIsRefused(r: Request)
    requires Fits(r, SCANNER_LEN_MAX)
    ensures var b := DAMAGED + Frame(r);
            && Scan(b, 0) == Found([Refuse(0), Dispatch(4, |Frame(r)|)], |b|)
            && Parsed(b[4..4 + |Frame(r)|]) == r
  {
    var b := DAMAGED + Frame(r);
    assert b[0..4] == DAMAGED && b[4..4 + |Frame(r)|] == Frame(r);
    DamagedSum();
    ScanAtHead(b, 0);
    ScanElsewhere(b, 1);
    ScanElsewhere(b, 2);
    ScanElsewhere(b, 3);
    ScanFrame(b, 4, r);
  }

  lemma DamagedThenTag()
    ensures var h := Exec(BEGIN, [Arrives(DAMAGED + Frame(TAG), SentAll)]);
            && Serving(h, 1) && h.sessions[1].expected == 0
            && h.slots == BEGIN.slots[0 := Submitted(FREE_TASK, 1, 1, TAG)]
  {
    var b, env := DAMAGED + Frame(TAG), Meets(SentAll);
    SampleFrames();
    DamagedIsRefused(TAG);
    FirstRead(b, SentAll, Scan(b, 0).events, |b|);
    EventsTwo(FIRST, b, Refuse(0), Dispatch(4, |Frame(TAG)|), env);
    TagFiled(BadFrame(FIRST, 1), SentAll, 1);
  }

  /** A damaged frame, then a request for a tag: number 0 is settled and still expected, number 1 waits
      behind it and is stuck. */
  lemma StuckIsReached()
    ensures var h := Exec(BEGIN, [Arrives(DAMAGED + Frame(TAG), SentAll)]);
            Serving(h, 1) && Held(h.slots, 1, 1) && Stuck(h, 1, 1)
  {
    DamagedThenTag();
    var h := Exec(BEGIN, [Arrives(DAMAGED + Frame(TAG), SentAll)]);
    assert Holds(h.slots[0], 1, 1);
    assert !Held(h.slots, 1, 0);
  }

  const REFUSED := Answer(1, 0, Refused, [CHECKSUM_REPLY])
  const DIRECT := Answer(1, 1, Direct, [REPLY])

  lemma AfterDamaged()
    ensures var g := BadFrame(FIRST, 1);
            && g.table == COMMANDS && Live(g, 1) && g.log == [REFUSED] && 1 !in g.gone
            && g.sessions[1].next == 1 && g.sessions[1].expected == 0 && g.maxRequest == LIMIT
  {
    assert [] + [REFUSED] == [REFUSED];
  }

  lemma DamagedThenVersion()
    ensures var h := Exec(BEGIN, [Arrives(DAMAGED + Frame(VERSION), SentAll)]);
            Serving(h, 1) && h.sessions[1].expected == 2 && h.log == [REFUSED] + [DIRECT]
  {
    var b, env := DAMAGED + Frame(VERSION), Meets(SentAll);
    SampleFrames();
    DamagedIsRefused(VERSION);
    FirstRead(b, SentAll, Scan(b, 0).events, |b|);
    EventsTwo(FIRST, b, Refuse(0), Dispatch(4, |Frame(VERSION)|), env);
    AfterDamaged();
    VersionSynced(BadFrame(FIRST, 1), SentAll, 1);
  }

  lemma FirstTwoAnswered(a: Answer, b: Answer)
    requires a.fd == b.fd == 1 && a.seqNo == 0 && b.seqNo == 1
    ensures LogFor([a], 1) == [0] && LogFor([a] + [b], 1) == Iota(2)
  {
    assert [] + [a] == [a];
    LogGrows([], a, 1);
    LogGrows([a], b, 1);
    assert [0] + [1] == Iota(2);
  }

  /** A damaged frame, then a request answered on the spot: the gap that the first leaves is closed by
      the second. */
  lemma GapIsClosed()
    ensures !GapFree(BadFrame(FIRST, 1), 1)
    ensures var h := Exec(BEGIN, [Arrives(DAMAGED + Frame(VERSION), SentAll)]);
            Serving(h, 1) && GapFree(h, 1) && h.sessions[1].expected == 2
  {
    AfterDamaged();
    DamagedThenVersion();
    FirstTwoAnswered(REFUSED, DIRECT);
    assert |Iota(0)| == 0;
  }
}
