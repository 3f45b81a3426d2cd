// What the streaming parser does over whole streams: clean streams are parsed exactly, any state
// resynchronises within a frame's worth of bytes, and the fixed buffer suffices up to 255 rejected
// length bytes in a row.

module ParserStreams {
  import opened Bytes
  import opened Requests
  import opened Parser

  predicate Idle(f: Fsm) { f.cur == [] }

  function Waits(n: nat): (rs: seq<Result>)
    ensures |rs| == n && forall i :: 0 <= i < n ==> rs[i] == Incomplete
  {
    seq(n, _ => Incomplete)
  }

  /** One byte, run by itself. */
  lemma RunOne(f: Fsm, b: Byte)
    requires WellFormed(f)
    ensures Run(f, [b]) == Trace(Step(f, b).fsm, [Step(f, b).result])
    ensures InBounds(f, [b]) <==> !Overruns(f, b)
  {
    assert [b][1..] == [];
  }

  lemma {:induction false} RunNoise(f: Fsm, noise: seq<Byte>)
    requires WellFormed(f) && Idle(f) && Quiet(noise)
    ensures Run(f, noise) == Trace(f, Waits(|noise|)) && InBounds(f, noise)
    decreases |noise|
  {
    if noise != [] {
      RunNoise(f, noise[1..]);
    }
  }

  /** A head, a length the parser accepts, and as many bytes as it says, sealed or not. */
  predicate Framed(s: seq<Byte>) { 4 <= |s| && s[0] == HEAD && 2 <= s[1] <= 253 && |s| == FrameSize(s[1]) }

  /** Up to its last byte, a frame only fills the buffer. */
  lemma {:induction false} RunFramePart(f: Fsm, s: seq<Byte>, k: nat)
    requires WellFormed(f) && Idle(f) && f.rejects < BUF_SIZE
    requires Framed(s) && k < |s|
    ensures Run(f, s[..k]).results == Waits(k) && InBounds(f, s[..k])
    ensures Run(f, s[..k]).fsm == Fsm(s[..k], if k < 2 then f.rejects else 0, f.next)
    decreases k
  {
    if k > 0 {
      RunFramePart(f, s, k - 1);
      var g := Run(f, s[..k - 1]).fsm;
      RunAppend(f, s[..k - 1], [s[k - 1]]);
      InBoundsAppend(f, s[..k - 1], [s[k - 1]]);
      RunOne(g, s[k - 1]);
      assert s[..k] == s[..k - 1] + [s[k - 1]];
    }
  }

  /** A frame read from the idle state is reported at its last byte and nowhere before: as a request with
      the next number if it is sealed, and as a checksum error that takes no number if it is not. The
      parser is idle again in both cases. */
  lemma {:induction false} RunFrame(f: Fsm, s: seq<Byte>)
    requires WellFormed(f) && Idle(f) && f.rejects < BUF_SIZE && Framed(s)
    ensures Run(f, s)
         == if Sealed(s) then Trace(Fsm([], 0, Inc32(f.next)), Waits(|s| - 1) + [Ok(Parsed(s), f.next)])
            else Trace(Fsm([], 0, f.next), Waits(|s| - 1) + [ChkErr])
    ensures InBounds(f, s)
  {
    var k := |s| - 1;
    RunFramePart(f, s, k);
    var g := Run(f, s[..k]).fsm;
    RunAppend(f, s[..k], [s[k]]);
    InBoundsAppend(f, s[..k], [s[k]]);
    RunOne(g, s[k]);
    assert s == s[..k] + [s[k]];
  }

  lemma RunSealed(f: Fsm, s: seq<Byte>)
    requires WellFormed(f) && Idle(f) && f.rejects < BUF_SIZE && IsFrame(s, FSM_LEN_MAX)
    ensures Run(f, s) == Trace(Fsm([], 0, Inc32(f.next)), Waits(|s| - 1) + [Ok(Parsed(s), f.next)])
    ensures InBounds(f, s)
  {
    RunFrame(f, s);
  }

  /** A length byte is rejected exactly below 2 and above 253. */
  lemma LengthErrorIff(f: Fsm, b: Byte)
    requires WellFormed(f)
    ensures Step(f, b).result == LenErr <==> |f.cur| == 1 && !(2 <= b <= 253)
    ensures Step(f, b).result == LenErr ==> Idle(Step(f, b).fsm) && Step(f, b).fsm.next == f.next
  {
  }

  // --- Clean streams ---

  /** The results owed on a clean stream: one Ok at the last byte of each frame, with that frame's
      request and the next sequence number, and Incomplete everywhere else. */
  function Owed(us: seq<Unit>, tail: nat, next: U32): seq<Result> {
    if us == [] then Waits(tail)
    else
      Waits(|us[0].noise| + (|us[0].request.payload| + 3)) + [Ok(us[0].request, next)]
      + Owed(us[1..], tail, Inc32(next))
  }

  lemma WaitsAppend(m: nat, n: nat)
    ensures Waits(m) + Waits(n) == Waits(m + n)
  {
  }

  lemma WaitsPrepend(m: nat, n: nat, rs: seq<Result>)
    ensures Waits(m) + (Waits(n) + rs) == Waits(m + n) + rs
  {
    WaitsAppend(m, n);
    assert Waits(m) + (Waits(n) + rs) == Waits(m) + Waits(n) + rs;
  }

  lemma {:induction false} RunFrameOf(f: Fsm, r: Request)
    requires WellFormed(f) && Idle(f) && f.rejects < BUF_SIZE && Fits(r, FSM_LEN_MAX)
    ensures Run(f, Frame(r)) == Trace(Fsm([], 0, Inc32(f.next)), Waits(|r.payload| + 3) + [Ok(r, f.next)])
    ensures InBounds(f, Frame(r))
  {
    FrameParsed(r, FSM_LEN_MAX);
    RunSealed(f, Frame(r));
  }

  /** Noise and one frame. */
  lemma {:induction false} RunUnit(f: Fsm, u: Unit)
    requires WellFormed(f) && Idle(f) && f.rejects < BUF_SIZE && CleanUnit(u, FSM_LEN_MAX)
    ensures var s := u.noise + Frame(u.request);
            && InBounds(f, s)
            && Run(f, s) == Trace(Fsm([], 0, Inc32(f.next)),
                                  Waits(|u.noise| + (|u.request.payload| + 3)) + [Ok(u.request, f.next)])
  {
    RunNoise(f, u.noise);
    RunFrameOf(f, u.request);
    RunAppend(f, u.noise, Frame(u.request));
    InBoundsAppend(f, u.noise, Frame(u.request));
    WaitsPrepend(|u.noise|, |u.request.payload| + 3, [Ok(u.request, f.next)]);
  }

  /** What a clean stream must come to. */
  ghost predicate ParsedExactly(f: Fsm, us: seq<Unit>, tail: seq<Byte>)
    requires WellFormed(f) && Clean(us, FSM_LEN_MAX)
  {
    && Run(f, Flatten(us, tail))
       == Trace(Fsm([], if us == [] then f.rejects else 0, (f.next + |us|) % U32_MOD), Owed(us, |tail|, f.next))
    && InBounds(f, Flatten(us, tail))
  }

  lemma ParsedExactlyCons(f: Fsm, us: seq<Unit>, tail: seq<Byte>)
    requires WellFormed(f) && Idle(f) && f.rejects < BUF_SIZE
    requires us != [] && Clean(us, FSM_LEN_MAX)
    requires ParsedExactly(Fsm([], 0, Inc32(f.next)), us[1..], tail)
    ensures ParsedExactly(f, us, tail)
  {
    var first, rest := us[0].noise + Frame(us[0].request), Flatten(us[1..], tail);
    assert Flatten(us, tail) == first + rest;
    RunUnit(f, us[0]);
    RunAppend(f, first, rest);
    InBoundsAppend(f, first, rest);
    IncTwice(f.next, |us| - 1);
  }

  lemma IncTwice(n: U32, m: nat)
    ensures (Inc32(n) + m) % U32_MOD == (n + (m + 1)) % U32_MOD
  {
  }

  /** On any concatenation of frames separated by bytes other than 0x40 the parser reports exactly
      the frames, never leaves its buffer, and is idle again. */
  lemma {:induction false} CleanStreamParsed(f: Fsm, us: seq<Unit>, tail: seq<Byte>)
    requires WellFormed(f) && Idle(f) && f.rejects < BUF_SIZE
    requires Clean(us, FSM_LEN_MAX) && Quiet(tail)
    ensures ParsedExactly(f, us, tail)
    decreases |us|
  {
    if us == [] {
      RunNoise(f, tail);
    } else {
      CleanStreamParsed(Fsm([], 0, Inc32(f.next)), us[1..], tail);
      ParsedExactlyCons(f, us, tail);
    }
  }

  // --- Resynchronisation ---

  /** How many bytes at most until the machine is idle again. */
  function BytesOwed(f: Fsm): (n: nat)
    requires WellFormed(f)
    ensures n <= 254 && (n == 0 <==> Idle(f))
  {
    if f.cur == [] then 0 else if |f.cur| == 1 then 254 else FrameSize(f.cur[1]) - |f.cur|
  }

  /** Whatever the bytes are, the machine passes through the idle state before they exceed what it
      is owed. */
  lemma {:induction false} BackToIdle(f: Fsm, s: seq<Byte>) returns (k: nat)
    requires WellFormed(f) && |s| >= BytesOwed(f)
    ensures k <= BytesOwed(f) <= |s| && Idle(Run(f, s[..k]).fsm)
    decreases |s|
  {
    if Idle(f) {
      k := 0;
    } else {
      var j := BackToIdle(Step(f, s[0]).fsm, s[1..]);
      k := j + 1;
      assert s[..k][1..] == s[1..][..j];
    }
  }

  /** Padding other than 0x40, as long as a frame can still owe, leaves the machine idle. */
  lemma {:induction false} QuietPaddingIdles(f: Fsm, pad: seq<Byte>)
    requires WellFormed(f) && Quiet(pad) && |pad| >= BytesOwed(f)
    ensures Idle(Run(f, pad).fsm)
  {
    var k := BackToIdle(f, pad);
    assert pad == pad[..k] + pad[k..];
    RunAppend(f, pad[..k], pad[k..]);
    InBoundsAppend(f, pad[..k], pad[k..]);
    assert Quiet(pad[k..]);
    RunNoise(Run(f, pad[..k]).fsm, pad[k..]);
  }

  /** From every state, 254 bytes of padding make the next frame parse, provided the rejected
      lengths have not used up the buffer. */
  lemma {:induction false} ResyncWithin254(f: Fsm, pad: seq<Byte>, r: Request)
    requires WellFormed(f) && Quiet(pad) && |pad| >= 254 && Fits(r, FSM_LEN_MAX)
    requires Run(f, pad).fsm.rejects < BUF_SIZE
    ensures var g, t := Run(f, pad).fsm, Run(f, pad + Frame(r));
            && t.results == Run(f, pad).results + (Waits(|r.payload| + 3) + [Ok(r, g.next)])
            && t.fsm == Fsm([], 0, Inc32(g.next))
  {
    QuietPaddingIdles(f, pad);
    var g := Run(f, pad).fsm;
    RunFrameOf(g, r);
    RunAppend(f, pad, Frame(r));
    InBoundsAppend(f, pad, Frame(r));
  }

  lemma {:induction false} FillingRun(f: Fsm, s: seq<Byte>)
    requires WellFormed(f) && |f.cur| >= 2 && |s| < BytesOwed(f)
    ensures Run(f, s).fsm.cur == f.cur + s
    decreases |s|
  {
    if s != [] {
      FillingRun(Step(f, s[0]).fsm, s[1..]);
      assert f.cur + s == f.cur + [s[0]] + s[1..];
    }
  }

  /** The bound is tight: 253 bytes of padding behind a head can all be swallowed. */
  lemma ResyncBoundIsTight(rejects: nat, next: U32, pad: seq<Byte>)
    requires |pad| == 253 && pad[0] == FSM_LEN_MAX
    ensures !Idle(Run(Fsm([HEAD], rejects, next), pad).fsm)
  {
    var f := Fsm([HEAD], rejects, next);
    FillingRun(Step(f, pad[0]).fsm, pad[1..]);
  }

  // --- The fixed buffer ---

  /** The byte makes the machine accept a length. */
  predicate Accepts(f: Fsm, b: Byte) { |f.cur| == 1 && 2 <= b <= FSM_LEN_MAX }

  ghost predicate NoneAccepted(f: Fsm, s: seq<Byte>)
    requires WellFormed(f)
    decreases |s|
  {
    s == [] || (!Accepts(f, s[0]) && NoneAccepted(Step(f, s[0]).fsm, s[1..]))
  }

  function LenErrs(rs: seq<Result>): nat {
    if rs == [] then 0 else (if rs[0] == LenErr then 1 else 0) + LenErrs(rs[1..])
  }

  /** The length errors in a stream since a length was last accepted; those before the stream count
      when it accepts none. */
  function LengthErrors(f: Fsm, s: seq<Byte>): nat
    requires WellFormed(f)
    decreases |s|
  {
    if s == [] then f.rejects
    else
      var n := |s| - 1;
      var g := Run(f, s[..n]).fsm;
      if Accepts(g, s[n]) then 0
      else LengthErrors(f, s[..n]) + if Step(g, s[n]).result == LenErr then 1 else 0
  }

  lemma {:induction false} RunLast(f: Fsm, s: seq<Byte>)
    requires WellFormed(f) && s != []
    ensures var n := |s| - 1;
            var t := Run(f, s[..n]);
            && Run(f, s) == Trace(Step(t.fsm, s[n]).fsm, t.results + [Step(t.fsm, s[n]).result])
            && (InBounds(f, s) <==> InBounds(f, s[..n]) && !Overruns(t.fsm, s[n]))
  {
    var n := |s| - 1;
    assert s == s[..n] + [s[n]];
    RunAppend(f, s[..n], [s[n]]);
    InBoundsAppend(f, s[..n], [s[n]]);
    RunOne(Run(f, s[..n]).fsm, s[n]);
  }

  /** In every state the count that the buffer position follows is that number. */
  lemma {:induction false} RejectsAreLengthErrors(f: Fsm, s: seq<Byte>)
    requires WellFormed(f)
    ensures Run(f, s).fsm.rejects == LengthErrors(f, s)
    decreases |s|
  {
    if s != [] {
      RejectsAreLengthErrors(f, s[..|s| - 1]);
      RunLast(f, s);
    }
  }

  /** Without an accepted length, these are all length errors of the stream. */
  lemma {:induction false} RejectsCounted(f: Fsm, s: seq<Byte>)
    requires WellFormed(f) && |f.cur| < 2 && NoneAccepted(f, s)
    ensures LengthErrors(f, s) == Run(f, s).fsm.rejects == f.rejects + LenErrs(Run(f, s).results)
    decreases |s|
  {
    RejectsAreLengthErrors(f, s);
    if s != [] {
      var one := Step(f, s[0]);
      RejectsCounted(one.fsm, s[1..]);
      assert Run(f, s).results[1..] == Run(one.fsm, s[1..]).results;
    }
  }

  /** If the k-th byte starts a frame, the buffer has room for it. */
  predicate HeadFits(f: Fsm, s: seq<Byte>, k: nat)
    requires WellFormed(f) && k < |s|
  {
    Idle(Run(f, s[..k]).fsm) && s[k] == HEAD ==> LengthErrors(f, s[..k]) < BUF_SIZE
  }

  lemma HeadFitsBefore(f: Fsm, s: seq<Byte>, n: nat, k: nat)
    requires WellFormed(f) && k < n <= |s|
    ensures HeadFits(f, s, k) <==> HeadFits(f, s[..n], k)
  {
    assert s[..k] == s[..n][..k];
  }

  lemma HeadFitsLast(f: Fsm, s: seq<Byte>)
    requires WellFormed(f) && s != []
    ensures var n := |s| - 1; HeadFits(f, s, n) <==> !Overruns(Run(f, s[..n]).fsm, s[n])
  {
    RejectsAreLengthErrors(f, s[..|s| - 1]);
  }

  /** The parser stays within its buffer on a stream if and only if every head that it takes as the start
      of a frame follows fewer than 255 length errors since a length was last accepted. */
  lemma {:induction false} InBoundsIff(f: Fsm, s: seq<Byte>)
    requires WellFormed(f)
    ensures InBounds(f, s) <==> forall k :: 0 <= k < |s| ==> HeadFits(f, s, k)
    decreases |s|
  {
    if s != [] {
      var n := |s| - 1;
      var init := s[..n];
      InBoundsIff(f, init);
      RunLast(f, s);
      forall k | 0 <= k < n ensures HeadFits(f, s, k) <==> HeadFits(f, init, k) {
        HeadFitsBefore(f, s, n, k);
      }
      HeadFitsLast(f, s);
    }
  }

  lemma {:induction false} LenErrsAppend(a: seq<Result>, b: seq<Result>)
    ensures LenErrs(a + b) == LenErrs(a) + LenErrs(b)
  {
    if a == [] {
      assert a + b == b;
    } else {
      assert (a + b)[1..] == a[1..] + b;
      LenErrsAppend(a[1..], b);
    }
  }

  lemma {:induction false} LengthErrorsBound(f: Fsm, s: seq<Byte>)
    requires WellFormed(f)
    ensures LengthErrors(f, s) <= f.rejects + LenErrs(Run(f, s).results)
    decreases |s|
  {
    if s != [] {
      var n := |s| - 1;
      var t := Run(f, s[..n]);
      LengthErrorsBound(f, s[..n]);
      RunLast(f, s);
      LenErrsAppend(t.results, [Step(t.fsm, s[n]).result]);
    }
  }

  /** Fewer than 255 length errors in all, and no byte of any stream leaves the buffer. */
  lemma FewRejectsInBounds(f: Fsm, s: seq<Byte>)
    requires WellFormed(f) && f.rejects + LenErrs(Run(f, s).results) < BUF_SIZE
    ensures InBounds(f, s)
  {
    InBoundsIff(f, s);
    forall k | 0 <= k < |s| ensures HeadFits(f, s, k) {
      assert s == s[..k] + s[k..];
      RunAppend(f, s[..k], s[k..]);
      LenErrsAppend(Run(f, s[..k]).results, Run(Run(f, s[..k]).fsm, s[k..]).results);
      LengthErrorsBound(f, s[..k]);
    }
  }

  function Rejected(n: nat): (s: seq<Byte>)
    ensures |s| == 2 * n
  {
    if n == 0 then [] else [HEAD, 0] + Rejected(n - 1)
  }

  lemma {:induction false} RejectedRun(f: Fsm, n: nat)
    requires WellFormed(f) && Idle(f)
    ensures Run(f, Rejected(n)).fsm == f.(rejects := f.rejects + n)
    ensures LenErrs(Run(f, Rejected(n)).results) == n
    decreases n
  {
    if n > 0 {
      var s := Rejected(n);
      var one := Step(f, s[0]).fsm;
      var two := Step(one, s[1]).fsm;
      assert s[1..][0] == 0 && s[1..][1..] == Rejected(n - 1);
      assert Run(f, s).fsm == Run(one, s[1..]).fsm == Run(two, Rejected(n - 1)).fsm;
      RejectedRun(two, n - 1);
      assert Run(f, s).results == [Incomplete] + Run(one, s[1..]).results;
      assert Run(one, s[1..]).results == [LenErr] + Run(two, Rejected(n - 1)).results;
    }
  }

  /** A fresh parser takes 255 rejected lengths in a row; the head that follows them is one too many. */
  lemma BufferHolds255Rejects(n: nat)
    ensures InBounds(START, Rejected(n) + [HEAD]) <==> n < BUF_SIZE
  {
    var s, init := Rejected(n) + [HEAD], Rejected(n);
    assert s[..|init|] == init && s[|init|] == HEAD;
    RejectedRun(START, n);
    if n < BUF_SIZE {
      RunLast(START, s);
      LenErrsAppend(Run(START, init).results, [Step(Run(START, init).fsm, HEAD).result]);
      FewRejectsInBounds(START, s);
    } else {
      InBoundsIff(START, s);
      RejectsAreLengthErrors(START, init);
      assert !HeadFits(START, s, |init|);
    }
  }
}
