// The command table and the response builder. A command handler is foreign code: it is represented
// by the outcome of one call, a return value and at most 64 bytes of data.

module Router {
  import opened Bytes
  import opened Responses

  const MAX_CMDS := 32
  const HANDLER_DATA_MAX := 64

  const CMD_NONE: Byte := 0x00
  const ERR_OK := 0x00
  const ERR_CHECKSUM := 0x01
  const ERR_LEN_OVERFLOW := 0x02
  const ERR_UNKNOWN_CMD := 0x03
  const ERR_PARAM_RANGE := 0x04
  const ERR_BUS_BUSY := 0x12
  const ERR_INTERNAL := 0xFF

  datatype Entry = Entry(cmd: Byte, minParams: Byte, maxParams: Byte, blocking: bool)

  /** What a frame start that is no frame is answered with. */
  const CHECKSUM_REPLY: Reply := Failure(CMD_NONE, ERR_CHECKSUM)

  type HandlerData = d: seq<Byte> | |d| <= HANDLER_DATA_MAX witness []
  datatype HandlerOutcome = Outcome(ret: int, data: HandlerData)

  /** A negative return value is an error code, anything else is success. */
  function ErrorOf(ret: int): nat { if ret < 0 then -ret else ERR_OK }

  /** The first entry registered for a command code. */
  function FirstMatch(table: seq<Entry>, cmd: Byte): (r: Option<Entry>)
    ensures r == None <==> forall i :: 0 <= i < |table| ==> table[i].cmd != cmd
    ensures r.Some? ==> r.value in table && r.value.cmd == cmd
  {
    if table == [] then None
    else if table[0].cmd == cmd then Some(table[0])
    else FirstMatch(table[1..], cmd)
  }

  /** Registration never changes what an already registered command resolves to. */
  lemma {:induction false} RegisterKeepsMatches(table: seq<Entry>, e: Entry, cmd: Byte)
    ensures FirstMatch(table + [e], cmd)
         == if FirstMatch(table, cmd).Some? then FirstMatch(table, cmd)
            else if e.cmd == cmd then Some(e) else None
  {
    if table == [] {
      assert table + [e] == [e] && [e][1..] == [];
    } else {
      assert (table + [e])[1..] == table[1..] + [e];
      RegisterKeepsMatches(table[1..], e, cmd);
    }
  }

  /** The first entry registered for the command takes this many parameters. */
  predicate Accepts(table: seq<Entry>, cmd: Byte, payload: seq<Byte>) {
    var e := FirstMatch(table, cmd);
    e.Some? && e.value.minParams <= |payload| <= e.value.maxParams && |payload| <= 251
  }

  /** The first entry registered for the command leaves it to the background thread. */
  predicate Blocks(table: seq<Entry>, cmd: Byte) {
    var e := FirstMatch(table, cmd);
    e.Some? && e.value.blocking
  }

  /** The response says what came out of the handler: its data, or the error it returned with the sign
      turned, cut to a byte. */
  predicate Tells(r: Response, cmd: Byte, o: HandlerOutcome) {
    if o.ret >= 0 then r == Success(cmd, o.data) else r == Failure(cmd, -o.ret % 256)
  }

  /** So an error that a byte can hold reaches the client as it is. */
  lemma OutcomeIsTold(cmd: Byte, o: HandlerOutcome)
    ensures Tells(Meaning(cmd, ErrorOf(o.ret), o.data), cmd, o)
    ensures -255 <= o.ret < 0 ==> Meaning(cmd, ErrorOf(o.ret), o.data) == Failure(cmd, -o.ret)
  {
  }

  datatype Verdict = Rejected(code: nat) | Replied(reply: Response)

  /** The decision of the router on one request whose handler would end in the given outcome. */
  function Process(table: seq<Entry>, cmd: Byte, payload: seq<Byte>, o: HandlerOutcome): (v: Verdict)
    ensures v.Replied? ==> Encodable(v.reply) && v.reply.cmd == cmd
    ensures v.Rejected? ==> v.code != 0
    ensures v.Replied? <==> Accepts(table, cmd, payload)
    ensures v.Replied? ==> Tells(v.reply, cmd, o)
    ensures v.Rejected? ==>
              v.code == if |payload| > 251 then 0x02 else if FirstMatch(table, cmd).None? then 0x03 else 0x04
  {
    if |payload| > PAYLOAD_MAX then Rejected(ERR_LEN_OVERFLOW)
    else
      match FirstMatch(table, cmd)
      case None => Rejected(ERR_UNKNOWN_CMD)
      case Some(e) =>
        if |payload| < e.minParams || |payload| > e.maxParams then Rejected(ERR_PARAM_RANGE)
        else Replied(Meaning(cmd, ErrorOf(o.ret), o.data))
  }

  /** The header a success response starts with, in uint8_t arithmetic. */
  function Header(cmd: Byte, dataLen: nat): seq<Byte> {
    [RETURN_CODE_OK, (dataLen + 2) % 256, cmd]
  }

  /** Data that fits: the checksum lands right behind it. */
  lemma FittingImage(cmd: Byte, data: seq<Byte>, image: seq<Byte>, c: Byte)
    requires |data| <= PAYLOAD_MAX && 4 + |data| <= |image|
    requires image[..3] == Header(cmd, |data|) && image[3..3 + |data|] == data
    requires c == Checksum(image[..3 + |data|])
    ensures image[3 + |data| := c][..4 + |data|] == Built(cmd, ERR_OK, data)
  {
    var n := 3 + |data|;
    assert image[..n] == image[..3] + image[3..n];
    assert image[n := c][..n + 1] == image[..n] + [c];
  }

  /** Too much data: the checksum lands in the header. */
  lemma OverlongImage(cmd: Byte, data: seq<Byte>, image: seq<Byte>, c: Byte)
    requires 252 < |data| <= 255 && 3 <= |image|
    requires image[..3] == Header(cmd, |data|)
    requires c == Checksum(image[..|data| - 253])
    ensures image[|data| - 253 := c][..|data| - 252] == Built(cmd, ERR_OK, data)
  {
    var n := |data| - 253;
    assert image[..n] == Header(cmd, |data|)[..n];
    assert image[n := c][..n + 1] == image[..n] + [c];
  }

  /** The builder, with its uint8_t positions. */
  method BuildResponse(cmd: Byte, err: nat, data: seq<Byte>, out: array<Byte>) returns (outLen: Byte)
    requires |data| <= 255 && 5 <= out.Length
    requires err == ERR_OK ==> 3 + |data| <= out.Length && (3 + |data|) % 256 < out.Length
    modifies out
    ensures outLen <= out.Length && out[..outLen] == Built(cmd, err, data)
  {
    var head := if err == ERR_OK then RETURN_CODE_OK else RETURN_CODE_ERR;
    out[0] := head;
    out[2] := cmd;
    if head == RETURN_CODE_OK {
      out[1] := (|data| + 2) % 256;
      CopyInto(data, out, 3);
      outLen := SealSuccess(cmd, data, out);
    } else {
      out[1] := 3;
      out[3] := err % 256;
      var c := CalcChecksum(out, 0, 5);
      assert out[..4] == Unsealed(Failure(cmd, err % 256));
      out[4] := c;
      outLen := 5;
      assert out[..5] == Wire(Failure(cmd, err % 256));
    }
  }

  /** The last two steps of a success response: the checksum and the reported length. */
  method SealSuccess(cmd: Byte, data: seq<Byte>, out: array<Byte>) returns (outLen: Byte)
    requires |data| <= 255 && 3 + |data| <= out.Length && (3 + |data|) % 256 < out.Length
    requires out[..3] == Header(cmd, |data|) && out[3..3 + |data|] == data
    modifies out
    ensures outLen <= out.Length && out[..outLen] == Built(cmd, ERR_OK, data)
  {
    var chkPos: Byte := (3 + |data|) % 256;
    outLen := ((chkPos as int) + 1) % 256;
    var c := CalcChecksum(out, 0, outLen);
    if |data| <= PAYLOAD_MAX {
      FittingImage(cmd, data, out[..], c);
    } else if |data| > 252 {
      OverlongImage(cmd, data, out[..], c);
    }
    ghost var image := out[..];
    out[chkPos] := c;
    assert out[..] == image[chkPos := c];
  }

  /** memcpy of a whole sequence to an offset of an array. */
  method CopyInto(src: seq<Byte>, dst: array<Byte>, at: nat)
    requires at + |src| <= dst.Length
    modifies dst
    ensures dst[..] == old(dst[..at]) + src + old(dst[at + |src|..])
  {
    forall i | 0 <= i < |src| {
      dst[at + i] := src[i];
    }
  }

  class CommandTable {
    const slots: array<Entry>
    var count: nat

    ghost predicate Valid()
      reads this
    {
      slots.Length == MAX_CMDS && count <= MAX_CMDS
    }

    /** The registered entries in registration order. */
    ghost function Entries(): seq<Entry>
      reads this, slots
      requires Valid()
    {
      slots[..count]
    }

    constructor ()
      ensures Valid() && fresh(slots) && Entries() == []
    {
      slots := new Entry[MAX_CMDS];
      count := 0;
    }

    method Register(e: Entry) returns (ok: bool)
      requires Valid()
      modifies this`count, slots
      ensures Valid()
      ensures ok == (|old(Entries())| < MAX_CMDS)
      ensures Entries() == if ok then old(Entries()) + [e] else old(Entries())
    {
      if count >= MAX_CMDS {
        return false;
      }
      slots[count] := e;
      count := count + 1;
      return true;
    }

    method Lookup(cmd: Byte) returns (r: Option<Entry>)
      requires Valid()
      ensures r == FirstMatch(Entries(), cmd)
    {
      var i := 0;
      while i < count
        invariant 0 <= i <= count
        invariant FirstMatch(Entries(), cmd) == FirstMatch(Entries()[i..], cmd)
      {
        assert Entries()[i..][1..] == Entries()[i + 1..];
        if slots[i].cmd == cmd {
          return Some(slots[i]);
        }
        i := i + 1;
      }
      return None;
    }

    /** Looks the command up, checks the parameter count, runs the handler and builds its response;
        a non-zero result means that nothing was built. */
    method RouterProcess(cmd: Byte, payload: seq<Byte>, o: HandlerOutcome, out: array<Byte>)
      returns (code: nat, outLen: Byte)
      requires Valid() && out.Length == 256
      modifies out
      ensures Valid() && Entries() == old(Entries())
      ensures match old(Process(Entries(), cmd, payload, o))
              case Rejected(c) => code == c && outLen == 0
              case Replied(reply) => code == 0 && outLen <= 255 && out[..outLen] == Wire(reply)
      ensures code == 0 <==> old(Accepts(Entries(), cmd, payload))
    {
      outLen := 0;
      if |payload| > PAYLOAD_MAX {
        return ERR_LEN_OVERFLOW, outLen;
      }
      var entry := Lookup(cmd);
      if entry.None? {
        return ERR_UNKNOWN_CMD, outLen;
      }
      if |payload| < entry.value.minParams || |payload| > entry.value.maxParams {
        return ERR_PARAM_RANGE, outLen;
      }
      outLen := BuildResponse(cmd, ErrorOf(o.ret), o.data, out);
      code := 0;
    }
  }
}
