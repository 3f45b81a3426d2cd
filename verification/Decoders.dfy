// The two decoders side by side: the streaming parser folded over a buffer, and the buffer scanner.

module Decoders {
  import opened Bytes
  import opened Requests
  import opened Scanner
  import opened Parser
  import opened ParserStreams

  /** A request together with the sequence number it was given. */
  datatype Got = Got(request: Request, seqNo: U32)

  /** What the parser reports. */
  function Reported(rs: seq<Result>): seq<Got> {
    if rs == [] then []
    else (if rs[0].Ok? then [Got(rs[0].request, rs[0].seqNo)] else []) + Reported(rs[1..])
  }

  predicate Within(b: seq<Byte>, es: seq<Event>) {
    forall e :: e in es && e.Dispatch? ==> e.size >= 4 && e.at + e.size <= |b|
  }

  /** What the scanner dispatches; every event, a refusal too, takes one sequence number. */
  function Dispatched(b: seq<Byte>, es: seq<Event>, next: U32): seq<Got>
    requires Within(b, es)
  {
    if es == [] then []
    else
      var e := es[0];
      (if e.Dispatch? then [Got(Parsed(b[e.at..e.at + e.size]), next)] else [])
      + Dispatched(b, es[1..], Inc32(next))
  }

  lemma {:induction false} ScanWithin(b: seq<Byte>, pos: nat)
    requires pos <= |b|
    ensures Within(b, Scan(b, pos).events)
    decreases |b| - pos
  {
    if pos < |b| {
      if HeadAt(b, pos) {
        ScanAtHead(b, pos);
        ScanWithin(b, EndOf(EventAt(b, pos)));
      } else {
        ScanElsewhere(b, pos);
        ScanWithin(b, pos + 1);
      }
    }
  }

  function ScannerGets(b: seq<Byte>, pos: nat, next: U32): seq<Got>
    requires pos <= |b|
  {
    ScanWithin(b, pos);
    Dispatched(b, Scan(b, pos).events, next)
  }

  lemma ScannerGetsFrame(b: seq<Byte>, pos: nat, next: U32)
    requires FrameAt(b, pos)
    ensures var end := pos + FrameSize(b[pos + 1]);
            ScannerGets(b, pos, next) == [Got(Parsed(b[pos..end]), next)] + ScannerGets(b, end, Inc32(next))
  {
    ScanAtHead(b, pos);
    var e := EventAt(b, pos);
    assert Scan(b, pos).events[1..] == Scan(b, EndOf(e)).events;
  }

  lemma {:induction false} ReportedAppend(xs: seq<Result>, ys: seq<Result>)
    ensures Reported(xs + ys) == Reported(xs) + Reported(ys)
  {
    if xs == [] {
      assert xs + ys == ys;
    } else {
      assert (xs + ys)[1..] == xs[1..] + ys;
      ReportedAppend(xs[1..], ys);
    }
  }

  lemma {:induction false} WaitsReportNothing(n: nat)
    ensures Reported(Waits(n)) == []
  {
    if n > 0 {
      assert Waits(n)[1..] == Waits(n - 1);
      WaitsReportNothing(n - 1);
    }
  }

  /** A length byte only the parser accepts. */
  predicate OverlongAt(b: seq<Byte>, p: nat) {
    p + 1 < |b| && b[p] == HEAD && SCANNER_LEN_MAX < b[p + 1] <= FSM_LEN_MAX
  }

  /** The scanner refuses nothing from pos on, and skips no head whose length only the parser
      accepts. */
  ghost predicate Common(b: seq<Byte>, pos: nat)
    requires pos <= |b|
  {
    && (forall e :: e in Scan(b, pos).events ==> e.Dispatch?)
    && (forall p :: pos <= p && OverlongAt(b, p) ==> Covered(Scan(b, pos).events, p))
  }

  lemma CommonAtFrame(b: seq<Byte>, pos: nat)
    requires pos <= |b| && Common(b, pos) && HeadAt(b, pos)
    ensures FrameAt(b, pos) && Common(b, pos + FrameSize(b[pos + 1]))
  {
    ScanAtHead(b, pos);
    var e := EventAt(b, pos);
    assert e in Scan(b, pos).events;
    var rest := Scan(b, EndOf(e)).events;
    forall p | EndOf(e) <= p && OverlongAt(b, p) ensures Covered(rest, p) {
      CoveredCons(e, rest, p);
    }
  }

  lemma CommonLength(b: seq<Byte>, pos: nat)
    requires pos + 1 < |b| && Common(b, pos) && b[pos] == HEAD && !HeadAt(b, pos)
    ensures (b[pos + 1] < 2 || b[pos + 1] > FSM_LEN_MAX) && Common(b, pos + 2)
    ensures Scan(b, pos) == Scan(b, pos + 2)
  {
    ScanElsewhere(b, pos);
    ScanStop(b, pos + 1);
    assert !OverlongAt(b, pos);
    ScanElsewhere(b, pos + 1);
  }

  /** A parser trace that reports these requests, no checksum error, and holds back these bytes. */
  ghost predicate Matches(t: Trace, gets: seq<Got>, rest: seq<Byte>) {
    Reported(t.results) == gets && ChkErr !in t.results && t.fsm.cur == rest
  }

  lemma MatchesAppend(t: Trace, u: Trace, ga: seq<Got>, gb: seq<Got>, rest: seq<Byte>)
    requires Reported(t.results) == ga && ChkErr !in t.results && Matches(u, gb, rest)
    ensures Matches(Trace(u.fsm, t.results + u.results), ga + gb, rest)
  {
    ReportedAppend(t.results, u.results);
  }

  /** What both decoders must come to from pos. */
  ghost predicate Agree(f: Fsm, b: seq<Byte>, pos: nat)
    requires WellFormed(f) && pos <= |b|
  {
    Matches(Run(f, b[pos..]), ScannerGets(b, pos, f.next), b[Scan(b, pos).stop..])
  }

  lemma {:induction false} RunJoined(f: Fsm, b: seq<Byte>, pos: nat, end: nat)
    requires WellFormed(f) && pos <= end <= |b|
    ensures var t := Run(f, b[pos..end]);
            var u := Run(t.fsm, b[end..]);
            Run(f, b[pos..]) == Trace(u.fsm, t.results + u.results)
  {
    assert b[pos..] == b[pos..end] + b[end..];
    RunAppend(f, b[pos..end], b[end..]);
  }

  /** Both decoders went from pos to end with the same result, and agree from there. */
  lemma AgreeStep(f: Fsm, b: seq<Byte>, pos: nat, end: nat, t: Trace, got: seq<Got>)
    requires WellFormed(f) && pos <= end <= |b| && t == Run(f, b[pos..end])
    requires Reported(t.results) == got && ChkErr !in t.results
    requires Scan(b, pos).stop == Scan(b, end).stop
    requires ScannerGets(b, pos, f.next) == got + ScannerGets(b, end, t.fsm.next)
    requires Agree(t.fsm, b, end)
    ensures Agree(f, b, pos)
  {
    RunJoined(f, b, pos, end);
    MatchesAppend(t, Run(t.fsm, b[end..]), got, ScannerGets(b, end, t.fsm.next), b[Scan(b, end).stop..]);
  }

  lemma FrameReports(n: nat, r: Request, next: U32)
    ensures Reported(Waits(n) + [Ok(r, next)]) == [Got(r, next)]
    ensures ChkErr !in Waits(n) + [Ok(r, next)]
  {
    ReportedAppend(Waits(n), [Ok(r, next)]);
    WaitsReportNothing(n);
    assert [Ok(r, next)][1..] == [];
  }

  lemma AgreeFrame(f: Fsm, b: seq<Byte>, pos: nat)
    requires WellFormed(f) && Idle(f) && f.rejects < BUF_SIZE && FrameAt(b, pos)
    requires Agree(Fsm([], 0, Inc32(f.next)), b, pos + FrameSize(b[pos + 1]))
    ensures Agree(f, b, pos)
  {
    var end := pos + FrameSize(b[pos + 1]);
    var w := b[pos..end];
    RunSealed(f, w);
    FrameReports(|w| - 1, Parsed(w), f.next);
    ScannerGetsFrame(b, pos, f.next);
    ScanAtHead(b, pos);
    AgreeStep(f, b, pos, end, Run(f, w), [Got(Parsed(w), f.next)]);
  }

  lemma NothingBefore(gs: seq<Got>)
    ensures [] + gs == gs
  {
  }

  lemma {:induction false} AgreeSkip(f: Fsm, b: seq<Byte>, pos: nat, end: nat, t: Trace)
    requires WellFormed(f) && pos <= end <= |b| && Scan(b, pos) == Scan(b, end) && t == Run(f, b[pos..end])
    requires t.fsm.next == f.next && Reported(t.results) == [] && ChkErr !in t.results && Agree(t.fsm, b, end)
    ensures Agree(f, b, pos)
  {
    NothingBefore(ScannerGets(b, pos, f.next));
    assert ScannerGets(b, pos, f.next) == ScannerGets(b, end, f.next);
    AgreeStep(f, b, pos, end, t, []);
  }

  lemma RunRejected(f: Fsm, b: Byte)
    requires WellFormed(f) && Idle(f) && (b < 2 || b > FSM_LEN_MAX)
    ensures Run(f, [HEAD, b]) == Trace(Fsm([], f.rejects + 1, f.next), [Incomplete] + [LenErr])
    ensures Reported([Incomplete] + [LenErr]) == []
  {
    RunOne(f, HEAD);
    RunOne(Step(f, HEAD).fsm, b);
    RunAppend(f, [HEAD], [b]);
    assert [HEAD] + [b] == [HEAD, b];
    ReportedAppend([Incomplete], [LenErr]);
  }

  /** The buffer bound carries over the part already read. */
  lemma InBoundsBeyond(f: Fsm, b: seq<Byte>, pos: nat, end: nat)
    requires WellFormed(f) && pos <= end <= |b| && InBounds(f, b[pos..])
    ensures InBounds(Run(f, b[pos..end]).fsm, b[end..])
  {
    assert b[pos..] == b[pos..end] + b[end..];
    InBoundsAppend(f, b[pos..end], b[end..]);
  }

  /** On every buffer the scanner takes in without a refusal, and in which it skips no head whose
      length byte is 252 or 253, folding the parser over the buffer reports the same requests under
      the same sequence numbers, without a checksum error, and holds back the same last byte. */
  lemma {:induction false} DecodersAgree(f: Fsm, b: seq<Byte>, pos: nat)
    requires WellFormed(f) && Idle(f) && pos <= |b| && Common(b, pos)
    requires InBounds(f, b[pos..])
    ensures Agree(f, b, pos)
    decreases |b| - pos, 1
  {
    if pos < |b| {
      if HeadAt(b, pos) {
        AgreeAtHead(f, b, pos);
      } else if b[pos] != HEAD {
        AgreeNoise(f, b, pos);
      } else if pos + 1 == |b| {
        assert b[pos..] == [HEAD];
        RunOne(f, HEAD);
      } else {
        AgreeRejected(f, b, pos);
      }
    }
  }

  lemma {:induction false} AgreeAtHead(f: Fsm, b: seq<Byte>, pos: nat)
    requires WellFormed(f) && Idle(f) && pos < |b| && Common(b, pos) && HeadAt(b, pos)
    requires InBounds(f, b[pos..])
    ensures Agree(f, b, pos)
    decreases |b| - pos, 0
  {
    CommonAtFrame(b, pos);
    var end := pos + FrameSize(b[pos + 1]);
    RunSealed(f, b[pos..end]);
    InBoundsBeyond(f, b, pos, end);
    DecodersAgree(Fsm([], 0, Inc32(f.next)), b, end);
    AgreeFrame(f, b, pos);
  }

  lemma {:induction false} AgreeNoise(f: Fsm, b: seq<Byte>, pos: nat)
    requires WellFormed(f) && Idle(f) && pos < |b| && Common(b, pos) && b[pos] != HEAD
    requires InBounds(f, b[pos..])
    ensures Agree(f, b, pos)
    decreases |b| - pos, 0
  {
    assert b[pos..pos + 1] == [b[pos]];
    RunOne(f, b[pos]);
    InBoundsBeyond(f, b, pos, pos + 1);
    DecodersAgree(f, b, pos + 1);
    AgreeSkip(f, b, pos, pos + 1, Run(f, b[pos..pos + 1]));
  }

  lemma {:induction false} AgreeRejected(f: Fsm, b: seq<Byte>, pos: nat)
    requires WellFormed(f) && Idle(f) && pos + 1 < |b| && Common(b, pos)
    requires b[pos] == HEAD && !HeadAt(b, pos) && InBounds(f, b[pos..])
    ensures Agree(f, b, pos)
    decreases |b| - pos, 0
  {
    CommonLength(b, pos);
    assert b[pos..pos + 2] == [HEAD, b[pos + 1]];
    RunRejected(f, b[pos + 1]);
    InBoundsBeyond(f, b, pos, pos + 2);
    DecodersAgree(Fsm([], f.rejects + 1, f.next), b, pos + 2);
    AgreeSkip(f, b, pos, pos + 2, Run(f, b[pos..pos + 2]));
  }

  // --- Clean streams ---

  function Numbered(us: seq<Unit>, next: U32): seq<Got> {
    if us == [] then [] else [Got(us[0].request, next)] + Numbered(us[1..], Inc32(next))
  }

  lemma {:induction false} ScanNoise(b: seq<Byte>, pos: nat, k: nat)
    requires pos + k <= |b| && Quiet(b[pos..pos + k])
    ensures Scan(b, pos) == Scan(b, pos + k)
    decreases k
  {
    if k > 0 {
      assert b[pos] == b[pos..pos + k][0];
      assert b[pos + 1..pos + k] == b[pos..pos + k][1..];
      ScanElsewhere(b, pos);
      ScanNoise(b, pos + 1, k - 1);
    }
  }

  lemma UnitAt(b: seq<Byte>, pos: nat, noise: seq<Byte>, r: Request, rest: seq<Byte>)
    requires pos <= |b| && Fits(r, SCANNER_LEN_MAX) && b[pos..] == noise + Frame(r) + rest
    ensures var at, w := pos + |noise|, Frame(r);
            && at + |w| <= |b| && b[pos..at] == noise && b[at..at + |w|] == w && b[at + |w|..] == rest
            && FrameAt(b, at) && FrameSize(b[at + 1]) == |w| && Parsed(w) == r
  {
    var at, w := pos + |noise|, Frame(r);
    assert b[pos..at] == b[pos..][..|noise|];
    assert b[at..at + |w|] == b[pos..][|noise|..|noise| + |w|];
    assert b[at + |w|..] == b[pos..][|noise| + |w|..];
    assert b[at] == w[0] && b[at + 1] == w[1];
    FrameParsed(r, SCANNER_LEN_MAX);
  }

  /** Nothing refused, nothing left over. */
  predicate AllDispatched(b: seq<Byte>, pos: nat)
    requires pos <= |b|
  {
    Scan(b, pos).stop == |b| && forall e :: e in Scan(b, pos).events ==> e.Dispatch?
  }

  lemma AllDispatchedFrame(b: seq<Byte>, at: nat)
    requires FrameAt(b, at) && AllDispatched(b, at + FrameSize(b[at + 1]))
    ensures AllDispatched(b, at)
  {
    ScanAtHead(b, at);
  }

  lemma NoiseThenFrame(b: seq<Byte>, pos: nat, n: nat, next: U32)
    requires pos + n <= |b| && Quiet(b[pos..pos + n]) && FrameAt(b, pos + n)
    ensures var at := pos + n;
            var end := at + FrameSize(b[at + 1]);
            && ScannerGets(b, pos, next) == [Got(Parsed(b[at..end]), next)] + ScannerGets(b, end, Inc32(next))
            && (AllDispatched(b, end) ==> AllDispatched(b, pos))
  {
    var at := pos + n;
    ScanNoise(b, pos, n);
    ScannerGetsFrame(b, at, next);
    if AllDispatched(b, at + FrameSize(b[at + 1])) {
      AllDispatchedFrame(b, at);
    }
  }

  lemma UnitScanned(b: seq<Byte>, pos: nat, u: Unit, rest: seq<Byte>, next: U32) returns (end: nat)
    requires pos <= |b| && CleanUnit(u, SCANNER_LEN_MAX) && b[pos..] == u.noise + Frame(u.request) + rest
    ensures pos < end <= |b| && b[end..] == rest
    ensures ScannerGets(b, pos, next) == [Got(u.request, next)] + ScannerGets(b, end, Inc32(next))
    ensures AllDispatched(b, end) ==> AllDispatched(b, pos)
  {
    UnitAt(b, pos, u.noise, u.request, rest);
    var at := pos + |u.noise|;
    end := at + |Frame(u.request)|;
    NoiseThenFrame(b, pos, |u.noise|, next);
  }

  /** On a clean stream of frames the scanner accepts, it dispatches exactly these frames in order
      and refuses nothing. */
  lemma {:induction false} CleanStreamScanned(b: seq<Byte>, pos: nat, us: seq<Unit>, tail: seq<Byte>, next: U32)
    requires pos <= |b| && Clean(us, SCANNER_LEN_MAX) && Quiet(tail) && b[pos..] == Flatten(us, tail)
    ensures ScannerGets(b, pos, next) == Numbered(us, next)
    ensures AllDispatched(b, pos)
    decreases |us|
  {
    if us == [] {
      assert b[pos..pos + |tail|] == tail;
      ScanNoise(b, pos, |tail|);
    } else {
      var end := UnitScanned(b, pos, us[0], Flatten(us[1..], tail), next);
      CleanStreamScanned(b, end, us[1..], tail, Inc32(next));
    }
  }

  lemma {:induction false} OwedReported(us: seq<Unit>, tail: nat, next: U32)
    ensures Reported(Owed(us, tail, next)) == Numbered(us, next)
    decreases |us|
  {
    if us == [] {
      WaitsReportNothing(tail);
    } else {
      var n := |us[0].noise| + (|us[0].request.payload| + 3);
      var ok := Ok(us[0].request, next);
      WaitsReportNothing(n);
      OwedReported(us[1..], tail, Inc32(next));
      ReportedAppend(Waits(n), [ok]);
      ReportedAppend(Waits(n) + [ok], Owed(us[1..], tail, Inc32(next)));
    }
  }

  lemma CleanForBoth(us: seq<Unit>)
    requires Clean(us, SCANNER_LEN_MAX)
    ensures Clean(us, FSM_LEN_MAX)
  {
    forall i | 0 <= i < |us| ensures CleanUnit(us[i], FSM_LEN_MAX) {
      assert CleanUnit(us[i], SCANNER_LEN_MAX);
    }
  }

  /** On clean streams of frames with a length byte up to 251, both decoders recover the requests
      that were encoded, numbered from where each of them stood. */
  lemma {:induction false} BothDecodeCleanStreams(us: seq<Unit>, tail: seq<Byte>, f: Fsm)
    requires Clean(us, SCANNER_LEN_MAX) && Quiet(tail)
    requires WellFormed(f) && Idle(f) && f.rejects < BUF_SIZE
    ensures Clean(us, FSM_LEN_MAX)
    ensures var s := Flatten(us, tail);
            Reported(Run(f, s).results) == Numbered(us, f.next) == ScannerGets(s, 0, f.next)
  {
    CleanForBoth(us);
    var s := Flatten(us, tail);
    assert s[0..] == s;
    CleanStreamParsed(f, us, tail);
    OwedReported(us, |tail|, f.next);
    CleanStreamScanned(s, 0, us, tail, f.next);
  }
}
