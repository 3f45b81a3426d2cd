// The response format: [0xF0][len][cmd][data][chk] on success, [0xF4][3][cmd][err][chk] on
// failure, its decoder, and the decoding of a byte stream of responses.

module Responses {
  import opened Bytes
  import opened Seqs

  const RETURN_CODE_OK: Byte := 0xF0
  const RETURN_CODE_ERR: Byte := 0xF4
  const PAYLOAD_MAX := 251
  const FRAME_MAX := 255

  datatype Option<T> = None | Some(value: T)

  datatype Response =
    | Success(cmd: Byte, data: seq<Byte>)
    | Failure(cmd: Byte, code: Byte)

  predicate Encodable(r: Response) { r.Success? ==> |r.data| <= PAYLOAD_MAX }

  type Reply = r: Response | Encodable(r) witness Failure(0, 0)

  /** The frame without its checksum; the length byte counts command, data and checksum. */
  function Unsealed(r: Response): (s: seq<Byte>)
    requires Encodable(r)
    ensures |s| >= 3 && s[1] == |s| - 1
  {
    match r
    case Success(cmd, data) => [RETURN_CODE_OK, |data| + 2, cmd] + data
    case Failure(cmd, code) => [RETURN_CODE_ERR, 3, cmd, code]
  }

  /** The complete wire form of a response. */
  function Wire(r: Response): (s: seq<Byte>)
    requires Encodable(r)
    ensures 4 <= |s| <= FRAME_MAX && |s| == FrameSize(s[1]) && Sealed(s)
  {
    SealedByLastByte(Unsealed(r), Checksum(Unsealed(r)));
    Unsealed(r) + [Checksum(Unsealed(r))]
  }

  /** The frame, byte by byte up to its checksum. */
  lemma WireIs(r: Response)
    requires Encodable(r)
    ensures var w := Wire(r)[..|Wire(r)| - 1];
            match r
            case Success(cmd, data) => w == [0xF0, |data| + 2, cmd] + data
            case Failure(cmd, code) => w == [0xF4, 0x03, cmd, code]
  {
    assert Wire(r)[..|Wire(r)| - 1] == Unsealed(r);
  }

  /** The response a builder call stands for: data is kept on success only, the error code is cut
      to one byte. */
  function Meaning(cmd: Byte, err: nat, data: seq<Byte>): (r: Response)
    ensures err != 0 ==> Encodable(r)
  {
    if err == 0 then Success(cmd, data) else Failure(cmd, err % 256)
  }

  /** What a builder call leaves in its output buffer, up to the reported length. The builder keeps
      positions in uint8_t: 252 data bytes bring the reported length to 0, and with more the
      position of the checksum falls back into the header. */
  function Built(cmd: Byte, err: nat, data: seq<Byte>): seq<Byte>
    requires |data| <= 255
  {
    if err != 0 || |data| <= PAYLOAD_MAX then Wire(Meaning(cmd, err, data))
    else if |data| == 252 then []
    else
      var head := [RETURN_CODE_OK, (|data| + 2) % 256, cmd][..|data| - 253];
      head + [Checksum(head)]
  }

  /** The decoder of one whole frame, written from the format and not from the builder. */
  function Decode(s: seq<Byte>): Option<Response> {
    if |s| < 4 || |s| > FRAME_MAX || |s| != FrameSize(s[1]) || !Sealed(s) then None
    else if s[0] == RETURN_CODE_OK then Some(Success(s[2], s[3..|s| - 1]))
    else if s[0] == RETURN_CODE_ERR && |s| == 5 then Some(Failure(s[2], s[3]))
    else None
  }

  lemma DecodeWire(r: Response)
    requires Encodable(r)
    ensures Decode(Wire(r)) == Some(r)
  {
    var s := Wire(r);
    if r.Success? {
      assert s[3..|s| - 1] == r.data;
    }
  }

  /** Only wire forms decode, so encoding and decoding are mutual inverses. */
  lemma WireDecode(s: seq<Byte>, r: Response)
    requires Decode(s) == Some(r)
    ensures Encodable(r) && Wire(r) == s
  {
    var body := s[..|s| - 1];
    assert s == body + [s[|s| - 1]];
    SealedByLastByte(body, s[|s| - 1]);
    assert body == Unsealed(r);
  }

  /** A builder call yields the response it stands for exactly when the data fits. */
  lemma BuiltDecodesIff(cmd: Byte, err: nat, data: seq<Byte>)
    requires |data| <= 255
    ensures Decode(Built(cmd, err, data)) == Some(Meaning(cmd, err, data))
            <==> err != 0 || |data| <= PAYLOAD_MAX
  {
    if err != 0 || |data| <= PAYLOAD_MAX {
      DecodeWire(Meaning(cmd, err, data));
    }
  }

  /** No wire form is a proper prefix of another: the length byte delimits the frame. */
  lemma WirePrefixFree(a: Response, b: Response, x: seq<Byte>, y: seq<Byte>)
    requires Encodable(a) && Encodable(b) && Wire(a) + x == Wire(b) + y
    ensures a == b && x == y
  {
    var s := Wire(a) + x;
    assert s[1] == Wire(a)[1] && s[1] == Wire(b)[1];
    assert s[..FrameSize(s[1])] == Wire(a) && s[..FrameSize(s[1])] == Wire(b);
    assert s[FrameSize(s[1])..] == x && s[FrameSize(s[1])..] == y;
    DecodeWire(a);
    DecodeWire(b);
  }

  /** Damage to one byte never turns a response into another response of the same length. */
  lemma WireDamageDetected(r: Response, k: nat, b: Byte)
    requires Encodable(r) && k < |Wire(r)| && b != Wire(r)[k]
    ensures Decode(Wire(r)[k := b]) == None
  {
    OneByteChangeBreaksSeal(Wire(r), k, b);
  }

  // --- Streams of responses ---

  predicate AllEncodable(rs: seq<Response>) { forall i :: 0 <= i < |rs| ==> Encodable(rs[i]) }

  function WireAll(rs: seq<Response>): seq<Byte>
    requires AllEncodable(rs)
  {
    if rs == [] then [] else Wire(rs[0]) + WireAll(rs[1..])
  }

  lemma {:induction false} WireAllAppend(rs: seq<Response>, r: Response)
    requires AllEncodable(rs) && Encodable(r)
    ensures WireAll(rs + [r]) == WireAll(rs) + Wire(r)
  {
    if rs == [] {
      assert rs + [r] == [r];
      assert WireAll([r][1..]) == [];
    } else {
      assert (rs + [r])[1..] == rs[1..] + [r];
      WireAllAppend(rs[1..], r);
      Assoc(Wire(rs[0]), WireAll(rs[1..]), Wire(r));
    }
  }

  datatype Stream = Stream(responses: seq<Response>, rest: seq<Byte>)

  /** What a client makes of a byte stream: it peels frames off the front as long as it can. */
  function DecodeStream(s: seq<Byte>): Stream {
    if |s| < 2 || |s| < FrameSize(s[1]) then Stream([], s)
    else
      match Decode(s[..FrameSize(s[1])])
      case None => Stream([], s)
      case Some(r) =>
        var t := DecodeStream(s[FrameSize(s[1])..]);
        Stream([r] + t.responses, t.rest)
  }

  /** A whole frame at the front of a stream is peeled off. */
  lemma PeelOne(r: Response, tail: seq<Byte>)
    requires Encodable(r)
    ensures DecodeStream(Wire(r) + tail)
         == Stream([r] + DecodeStream(tail).responses, DecodeStream(tail).rest)
  {
    var s := Wire(r) + tail;
    assert s[1] == Wire(r)[1];
    assert s[..FrameSize(s[1])] == Wire(r) && s[FrameSize(s[1])..] == tail;
    DecodeWire(r);
  }

  /** The stream t of the bytes s holds the first k responses of rs, and what is left over is a
      strict part of the frame that follows. */
  ghost predicate HoldsFirst(t: Stream, s: seq<Byte>, rs: seq<Response>, k: nat)
    requires AllEncodable(rs)
  {
    && k <= |rs|
    && t.responses == rs[..k]
    && s == WireAll(rs[..k]) + t.rest
    && if k == |rs| then t.rest == [] else t.rest < Wire(rs[k])
  }

  lemma WireAllFirst(rs: seq<Response>, k: nat)
    requires k < |rs| && AllEncodable(rs)
    ensures rs[..k + 1] == [rs[0]] + rs[1..][..k]
    ensures WireAll(rs[..k + 1]) == Wire(rs[0]) + WireAll(rs[1..][..k])
  {
    assert rs[..k + 1][1..] == rs[1..][..k];
  }

  lemma HoldsOneMore(t: Stream, s: seq<Byte>, rs: seq<Response>, k: nat)
    requires rs != [] && AllEncodable(rs) && HoldsFirst(t, s, rs[1..], k)
    ensures HoldsFirst(Stream([rs[0]] + t.responses, t.rest), Wire(rs[0]) + s, rs, k + 1)
  {
    WireAllFirst(rs, k);
    Assoc(Wire(rs[0]), WireAll(rs[1..][..k]), t.rest);
  }

  /** A stream of responses may be cut anywhere. */
  lemma {:induction false} PrefixDecodes(rs: seq<Response>, n: nat) returns (k: nat)
    requires AllEncodable(rs) && n <= |WireAll(rs)|
    ensures HoldsFirst(DecodeStream(WireAll(rs)[..n]), WireAll(rs)[..n], rs, k)
  {
    if rs == [] {
      k := 0;
    } else if n < |Wire(rs[0])| {
      k := 0;
      assert WireAll(rs)[..n] == Wire(rs[0])[..n];
    } else {
      var m := n - |Wire(rs[0])|;
      assert WireAll(rs)[..n] == Wire(rs[0]) + WireAll(rs[1..])[..m];
      var j := PrefixDecodes(rs[1..], m);
      PeelOne(rs[0], WireAll(rs[1..])[..m]);
      HoldsOneMore(DecodeStream(WireAll(rs[1..])[..m]), WireAll(rs[1..])[..m], rs, j);
      k := j + 1;
    }
  }
}
