// The streaming parser. Its meaning is a small machine that holds the bytes of the frame in
// progress; the class below works on a fixed buffer with byte-sized counters and refines it.

module Parser {
  import opened Bytes
  import opened Requests

  datatype Result = Ok(request: Request, seqNo: U32) | Incomplete | ChkErr | LenErr

  /** cur: the frame so far; rejects: length bytes rejected since one was last accepted. */
  datatype Fsm = Fsm(cur: seq<Byte>, rejects: nat, next: U32)

  const BUF_SIZE := 255
  const START := Fsm([], 0, 0)

  predicate WellFormed(f: Fsm) {
    && (f.cur != [] ==> f.cur[0] == HEAD)
    && (|f.cur| >= 2 ==> 2 <= f.cur[1] <= FSM_LEN_MAX && |f.cur| < FrameSize(f.cur[1]) && f.rejects == 0)
  }

  datatype Stepped = Stepped(fsm: Fsm, result: Result)

  /** One more byte for a frame whose length is known. */
  function Grow(f: Fsm, b: Byte): (r: Stepped)
    requires WellFormed(f) && |f.cur| >= 2
    ensures WellFormed(r.fsm)
  {
    var cur := f.cur + [b];
    if |cur| < FrameSize(f.cur[1]) then Stepped(Fsm(cur, 0, f.next), Incomplete)
    else if Sealed(cur) then Stepped(Fsm([], 0, Inc32(f.next)), Ok(Parsed(cur), f.next))
    else Stepped(Fsm([], 0, f.next), ChkErr)
  }

  function Step(f: Fsm, b: Byte): (r: Stepped)
    requires WellFormed(f)
    ensures WellFormed(r.fsm)
  {
    if f.cur == [] then
      Stepped(if b == HEAD then Fsm([b], f.rejects, f.next) else f, Incomplete)
    else if |f.cur| == 1 then
      if b < 2 || b > FSM_LEN_MAX then Stepped(Fsm([], f.rejects + 1, f.next), LenErr)
      else Stepped(Fsm([HEAD, b], 0, f.next), Incomplete)
    else
      Grow(f, b)
  }

  /** The one byte the fixed buffer has no room for: a head behind 255 rejected lengths. */
  predicate Overruns(f: Fsm, b: Byte) { f.cur == [] && b == HEAD && f.rejects >= BUF_SIZE }

  datatype Trace = Trace(fsm: Fsm, results: seq<Result>)

  function Run(f: Fsm, s: seq<Byte>): (t: Trace)
    requires WellFormed(f)
    ensures WellFormed(t.fsm) && |t.results| == |s|
    decreases |s|
  {
    if s == [] then Trace(f, [])
    else
      var one := Step(f, s[0]);
      var rest := Run(one.fsm, s[1..]);
      Trace(rest.fsm, [one.result] + rest.results)
  }

  predicate InBounds(f: Fsm, s: seq<Byte>)
    requires WellFormed(f)
    decreases |s|
  {
    s == [] || (!Overruns(f, s[0]) && InBounds(Step(f, s[0]).fsm, s[1..]))
  }

  lemma {:induction false} RunAppend(f: Fsm, a: seq<Byte>, b: seq<Byte>)
    requires WellFormed(f)
    ensures Run(f, a + b) == Trace(Run(Run(f, a).fsm, b).fsm, Run(f, a).results + Run(Run(f, a).fsm, b).results)
    decreases |a|
  {
    if a == [] {
      assert a + b == b;
    } else {
      assert (a + b)[1..] == a[1..] + b;
      var one := Step(f, a[0]);
      RunAppend(one.fsm, a[1..], b);
      var x, y := Run(one.fsm, a[1..]).results, Run(Run(f, a).fsm, b).results;
      assert [one.result] + (x + y) == [one.result] + x + y;
    }
  }

  lemma {:induction false} InBoundsAppend(f: Fsm, a: seq<Byte>, b: seq<Byte>)
    requires WellFormed(f)
    ensures InBounds(f, a + b) <==> InBounds(f, a) && InBounds(Run(f, a).fsm, b)
    decreases |a|
  {
    if a == [] {
      assert a + b == b;
    } else {
      assert (a + b)[1..] == a[1..] + b;
      InBoundsAppend(Step(f, a[0]).fsm, a[1..], b);
    }
  }

  // --- The class ---

  datatype State = WaitHead | WaitLen | WaitCmd | WaitPayload | WaitCheck

  class ProtoCtx {
    var state: State
    const frameBuf: array<Byte>
    var bufPos: Byte
    var payloadLen: Byte
    var expectedTotal: Byte
    var nextReqSeq: U32

    /** Which counters the states promise. */
    ghost predicate Valid()
      reads this, frameBuf
    {
      && frameBuf.Length == BUF_SIZE
      && match state
         case WaitHead => bufPos > 0 ==> frameBuf[0] == HEAD
         case WaitLen => 1 <= bufPos && frameBuf[0] == HEAD
         case _ =>
           && frameBuf[0] == HEAD && 2 <= frameBuf[1] <= FSM_LEN_MAX
           && payloadLen == frameBuf[1] - 2
           && (expectedTotal as int) == FrameSize(frameBuf[1])
           && match state
              case WaitCmd => bufPos == 2
              case WaitPayload => 3 <= bufPos < 3 + (payloadLen as int)
              case _ => (bufPos as int) == 3 + (payloadLen as int) == expectedTotal - 1
    }

    /** The machine state the fields stand for. */
    ghost function Abs(): (f: Fsm)
      reads this, frameBuf
      requires Valid()
      ensures WellFormed(f)
    {
      match state
      case WaitHead => Fsm([], bufPos, nextReqSeq)
      case WaitLen => Fsm(frameBuf[..1], bufPos - 1, nextReqSeq)
      case _ => Fsm(frameBuf[..bufPos], 0, nextReqSeq)
    }

    constructor ()
      ensures Valid() && fresh(frameBuf) && Abs() == START
    {
      frameBuf := new Byte[BUF_SIZE](_ => 0);
      state, bufPos, payloadLen, expectedTotal, nextReqSeq := WaitHead, 0, 0, 0, 0;
    }

    method ParseByte(byte: Byte) returns (r: Result)
      requires Valid() && !Overruns(Abs(), byte)
      modifies this, frameBuf
      ensures Valid()
      ensures Stepped(Abs(), r) == old(Step(Abs(), byte))
    {
      ghost var f := Abs();
      match state {
        case WaitHead =>
          if byte == HEAD {
            frameBuf[bufPos] := byte;
            bufPos := bufPos + 1;
            state := WaitLen;
            assert frameBuf[0] == HEAD;
          }
        case WaitLen =>
          frameBuf[1] := byte;
          if byte < 2 {
            state := WaitHead;
            return LenErr;
          }
          payloadLen := byte - 2;
          if payloadLen > 251 {
            state := WaitHead;
            return LenErr;
          }
          expectedTotal := byte + 2;
          bufPos := 2;
          state := WaitCmd;
          assert frameBuf[..2] == f.cur + [byte];
        case WaitCmd =>
          frameBuf[2] := byte;
          bufPos := 3;
          state := if payloadLen > 0 then WaitPayload else WaitCheck;
          assert frameBuf[..3] == f.cur + [byte];
        case WaitPayload =>
          frameBuf[bufPos] := byte;
          bufPos := bufPos + 1;
          if (bufPos as int) >= 3 + (payloadLen as int) {
            state := WaitCheck;
          }
          assert frameBuf[..bufPos] == f.cur + [byte];
        case WaitCheck =>
          r := CheckFrame(byte);
          return;
      }
      return Incomplete;
    }

    /** The last byte of a frame: the checksum decides. */
    method CheckFrame(byte: Byte) returns (r: Result)
      requires Valid() && state == WaitCheck
      modifies this, frameBuf
      ensures Valid()
      ensures Stepped(Abs(), r) == old(Step(Abs(), byte))
    {
      ghost var cur := Abs().cur;
      frameBuf[bufPos] := byte;
      bufPos := bufPos + 1;
      assert frameBuf[0..0 + (expectedTotal as int)] == cur + [byte];
      var c := CalcChecksum(frameBuf, 0, expectedTotal);
      if c == byte {
        r := Ok(Request(frameBuf[2], frameBuf[3..3 + (payloadLen as int)]), nextReqSeq);
        nextReqSeq := Inc32(nextReqSeq);
        assert r.request == Parsed(cur + [byte]);
      } else {
        r := ChkErr;
      }
      state, bufPos := WaitHead, 0;
    }
  }
}
