// The request format [0x40][len][cmd][payload][chk], where len counts command, payload and checksum.

module Requests {
  import opened Bytes

  const HEAD: Byte := 0x40
  const FSM_LEN_MAX := 253       // the largest length byte the streaming parser accepts
  const SCANNER_LEN_MAX := 251   // the largest length byte the buffer scanner accepts

  datatype Request = Request(cmd: Byte, payload: seq<Byte>)

  /** A request whose length byte does not exceed maxLen. */
  predicate Fits(r: Request, maxLen: nat) { |r.payload| + 2 <= maxLen <= FSM_LEN_MAX }

  function FrameBody(r: Request): (s: seq<Byte>)
    requires Fits(r, FSM_LEN_MAX)
    ensures |s| >= 3 && s[0] == HEAD && s[1] == |s| - 1
  {
    [HEAD, |r.payload| + 2, r.cmd] + r.payload
  }

  /** The wire form of a request. */
  function Frame(r: Request): (s: seq<Byte>)
    requires Fits(r, FSM_LEN_MAX)
    ensures 4 <= |s| == |r.payload| + 4 && s[0] == HEAD && |s| == FrameSize(s[1]) && Sealed(s)
  {
    SealedByLastByte(FrameBody(r), Checksum(FrameBody(r)));
    FrameBody(r) + [Checksum(FrameBody(r))]
  }

  /** A well-formed frame, stated on the bytes alone. */
  predicate IsFrame(s: seq<Byte>, maxLen: nat) {
    && 4 <= |s| && s[0] == HEAD && 2 <= s[1] <= maxLen <= FSM_LEN_MAX
    && |s| == FrameSize(s[1]) && Sealed(s)
  }

  /** The fields of a frame. */
  function Parsed(s: seq<Byte>): Request
    requires 4 <= |s|
  {
    Request(s[2], s[3..|s| - 1])
  }

  lemma ParsedAt(b: seq<Byte>, pos: nat, size: nat)
    requires 4 <= size && pos + size <= |b|
    ensures Parsed(b[pos..pos + size]) == Request(b[pos + 2], b[pos + 3..pos + size - 1])
  {
    var w := b[pos..pos + size];
    assert forall i :: 0 <= i < size ==> w[i] == b[pos + i];
    assert w[3..size - 1] == b[pos + 3..pos + size - 1];
  }

  lemma FrameParsed(r: Request, maxLen: nat)
    requires Fits(r, maxLen)
    ensures IsFrame(Frame(r), maxLen) && Parsed(Frame(r)) == r
  {
  }

  /** The well-formed byte strings are exactly the wire forms of requests. */
  lemma ParsedFrame(s: seq<Byte>, maxLen: nat)
    requires IsFrame(s, maxLen)
    ensures Fits(Parsed(s), maxLen) && Frame(Parsed(s)) == s
  {
    var body := s[..|s| - 1];
    assert s == body + [s[|s| - 1]];
    SealedByLastByte(body, s[|s| - 1]);
    assert body == FrameBody(Parsed(s));
  }

  // --- Clean streams: frames separated by bytes that are not 0x40 ---

  predicate Quiet(s: seq<Byte>) { HEAD !in s }

  /** One noise run followed by one frame. */
  datatype Unit = Unit(noise: seq<Byte>, request: Request)

  predicate CleanUnit(u: Unit, maxLen: nat) { Quiet(u.noise) && Fits(u.request, maxLen) }

  predicate Clean(us: seq<Unit>, maxLen: nat) {
    forall i :: 0 <= i < |us| ==> CleanUnit(us[i], maxLen)
  }

  function Flatten(us: seq<Unit>, tail: seq<Byte>): seq<Byte>
    requires Clean(us, FSM_LEN_MAX)
  {
    if us == [] then tail else us[0].noise + Frame(us[0].request) + Flatten(us[1..], tail)
  }
}
