// The reader for datagrams and the serial line: the same scan over one buffer, with nothing carried
// over to the next, and every frame answered on the spot.

module Datagram {
  import opened Bytes
  import opened Requests
  import opened Responses
  import opened Scanner
  import opened Router
  import opened Gateway
  import opened Worker

  /** The reply to one event: F4 for a refused frame start, the command's reply for a frame, nothing
      for a frame the router rejects. */
  function ReplyTo(table: seq<Entry>, b: seq<Byte>, e: Event, o: HandlerOutcome): (rs: seq<Reply>)
    requires EventIn(b, e)
    ensures |rs| <= 1
  {
    if e.Refuse? then [CHECKSUM_REPLY]
    else
      var r := Parsed(b[e.at..e.at + e.size]);
      match Process(table, r.cmd, r.payload, o)
      case Rejected(_) => []
      case Replied(reply) => [reply]
  }

  /** The replies to a list of events; run(k) is the outcome met by the k-th. */
  function Replies(table: seq<Entry>, b: seq<Byte>, es: seq<Event>, run: nat -> HandlerOutcome): (rs: seq<Reply>)
    requires AllIn(b, es)
    ensures |rs| <= |es|
    decreases |es|
  {
    if es == [] then []
    else
      var n := |es| - 1;
      Replies(table, b, es[..n], run) + ReplyTo(table, b, es[n], run(n))
  }

  lemma RepliesSnoc(table: seq<Entry>, b: seq<Byte>, es: seq<Event>, e: Event, run: nat -> HandlerOutcome)
    requires AllIn(b, es) && EventIn(b, e)
    ensures AllIn(b, es + [e])
    ensures Replies(table, b, es + [e], run) == Replies(table, b, es, run) + ReplyTo(table, b, e, run(|es|))
  {
    assert (es + [e])[..|es|] == es;
  }

  // --- What is written ---

  /** The event is answered: a refused frame start, or a request whose command takes its parameters. */
  predicate IsAnswered(table: seq<Entry>, b: seq<Byte>, e: Event)
    requires EventIn(b, e)
  {
    e.Refuse? || Accepts(table, b[e.at + 2], b[e.at + 3..e.at + e.size - 1])
  }

  /** The frame is the answer to the event: F4 with command 0 and code 1 for a refused frame start, and what
      came out of the handler for a request. */
  predicate AnswersEvent(frame: seq<Byte>, b: seq<Byte>, e: Event, o: HandlerOutcome)
    requires EventIn(b, e)
  {
    var r := Decode(frame);
    r.Some? && if e.Refuse? then r.value == Failure(0, 1) else Tells(r.value, b[e.at + 2], o)
  }

  /** The frames answer the events at these positions, which are those of all answered events, in order. */
  ghost predicate Corresponds(table: seq<Entry>, b: seq<Byte>, es: seq<Event>, run: nat -> HandlerOutcome,
                              written: seq<seq<Byte>>, at: seq<nat>) {
    && AllIn(b, es) && |at| == |written|
    && (forall i :: 0 <= i < |at| ==> at[i] < |es|)
    && (forall i, j :: 0 <= i < j < |at| ==> at[i] < at[j])
    && (forall k :: 0 <= k < |es| ==> (k in at <==> IsAnswered(table, b, es[k])))
    && (forall i :: 0 <= i < |at| ==> AnswersEvent(written[i], b, es[at[i]], run(at[i])))
  }

  /** One event: a frame exactly when it is answered. */
  lemma OneAnswer(table: seq<Entry>, b: seq<Byte>, e: Event, o: HandlerOutcome, frames: seq<seq<Byte>>)
    requires EventIn(b, e) && AreFrames(frames, ReplyTo(table, b, e, o))
    ensures |frames| == if IsAnswered(table, b, e) then 1 else 0
    ensures IsAnswered(table, b, e) ==> AnswersEvent(frames[0], b, e, o)
  {
    if e.Dispatch? {
      ParsedAt(b, e.at, e.size);
    }
    if frames != [] {
      DecodeWire(ReplyTo(table, b, e, o)[0]);
    }
  }

  lemma CorrespondsMore(table: seq<Entry>, b: seq<Byte>, es: seq<Event>, run: nat -> HandlerOutcome, written: seq<seq<Byte>>,
                        at: seq<nat>, e: Event, more: seq<seq<Byte>>)
    requires Corresponds(table, b, es, run, written, at) && EventIn(b, e)
    requires |more| == if IsAnswered(table, b, e) then 1 else 0
    requires IsAnswered(table, b, e) ==> AnswersEvent(more[0], b, e, run(|es|))
    ensures Corresponds(table, b, es + [e], run, written + more, at + if more == [] then [] else [|es|])
  {
    var all, ats := es + [e], at + if more == [] then [] else [|es|];
    forall k | 0 <= k < |all| ensures k in ats <==> IsAnswered(table, b, all[k]) {
      assert k < |es| ==> all[k] == es[k];
      assert more != [] ==> ats[|at|] == |es|;
      assert k in at ==> k in ats;
    }
    forall i | 0 <= i < |ats| ensures AnswersEvent((written + more)[i], b, all[ats[i]], run(ats[i])) {
      assert i < |at| ==> ats[i] == at[i] && all[at[i]] == es[at[i]];
    }
  }

  lemma FramesSplit(frames: seq<seq<Byte>>, xs: seq<Reply>, ys: seq<Reply>)
    requires AreFrames(frames, xs + ys)
    ensures var n := |xs|;
            AreFrames(frames[..n], xs) && AreFrames(frames[n..], ys) && frames[..n] + frames[n..] == frames
  {
    var n := |xs|;
    forall i | 0 <= i < n ensures frames[..n][i] == Wire(xs[i]) {
      assert (xs + ys)[i] == xs[i];
    }
    forall i | 0 <= i < |ys| ensures frames[n..][i] == Wire(ys[i]) {
      assert (xs + ys)[n + i] == ys[i];
    }
  }

  /** Each refused frame start and each request that its command takes is answered by exactly one frame, in
      their order, and nothing else is written. */
  lemma {:induction false} WrittenCorresponds(table: seq<Entry>, b: seq<Byte>, es: seq<Event>, run: nat -> HandlerOutcome,
                                              written: seq<seq<Byte>>) returns (at: seq<nat>)
    requires AllIn(b, es) && AreFrames(written, Replies(table, b, es, run))
    ensures Corresponds(table, b, es, run, written, at)
    decreases |es|
  {
    if es == [] {
      at := [];
    } else {
      var n := |es| - 1;
      var xs, ys := Replies(table, b, es[..n], run), ReplyTo(table, b, es[n], run(n));
      FramesSplit(written, xs, ys);
      var first, more := written[..|xs|], written[|xs|..];
      at := WrittenCorresponds(table, b, es[..n], run, first);
      OneAnswer(table, b, es[n], run(n), more);
      CorrespondsMore(table, b, es[..n], run, first, at, es[n], more);
      assert es[..n] + [es[n]] == es;
      at := at + if more == [] then [] else [n];
    }
  }

  /** The scan of b has come to pos, and the frames written answer the events it found. */
  ghost predicate AnsweredTo(table: seq<Entry>, b: seq<Byte>, run: nat -> HandlerOutcome, done: seq<Event>, pos: nat, written: seq<seq<Byte>>) {
    && pos <= |b| && ScanSplit(b, done, pos) && AllIn(b, done)
    && AreFrames(written, Replies(table, b, done, run))
  }

  lemma AnsweredOneMore(table: seq<Entry>, b: seq<Byte>, run: nat -> HandlerOutcome, done: seq<Event>, pos: nat,
                                           written: seq<seq<Byte>>, more: seq<seq<Byte>>)
    requires AnsweredTo(table, b, run, done, pos, written) && HeadAt(b, pos) && EventIn(b, EventAt(b, pos))
    requires AreFrames(more, ReplyTo(table, b, EventAt(b, pos), run(|done|)))
    ensures AnsweredTo(table, b, run, done + [EventAt(b, pos)], EndOf(EventAt(b, pos)), written + more)
  {
    SplitEvent(b, done, pos);
    RepliesSnoc(table, b, done, EventAt(b, pos), run);
  }

  /** The frames written in answer to the first n bytes of a datagram. */
  method ReadDatagram(table: CommandTable, buf: array<Byte>, n: nat, run: nat -> HandlerOutcome) returns (written: seq<seq<Byte>>)
    requires table.Valid() && n <= buf.Length
    ensures var b := buf[..n];
            && AllIn(b, Scan(b, 0).events)
            && AreFrames(written, Replies(table.Entries(), b, Scan(b, 0).events, run))
            && exists at :: Corresponds(table.Entries(), b, Scan(b, 0).events, run, written, at)
  {
    written := [];
    var pos, k := 0, 0;
    ghost var b, done := buf[..n], [];
    while pos < n
      invariant pos <= n && k == |done| && AnsweredTo(table.Entries(), b, run, done, pos, written)
    {
      if buf[pos] != HEAD {
        SplitSkip(b, done, pos);
        pos := pos + 1;
      } else if pos + 1 >= n {
        break;
      } else if buf[pos + 1] < 2 || buf[pos + 1] > SCANNER_LEN_MAX {
        SplitSkip(b, done, pos);
        pos := pos + 1;
      } else {
        ghost var at := pos;
        var reply;
        pos, reply := AnswerEvent(table, buf, n, pos, run(k));
        AnsweredOneMore(table.Entries(), b, run, done, at, written, reply);
        written := written + reply;
        done := done + [EventAt(b, at)];
        k := k + 1;
      }
    }
    SplitEnd(b, done, pos);
    ghost var at := WrittenCorresponds(table.Entries(), b, done, run, written);
  }

  /** The reply of a command, if the router accepts the request. */
  method AnswerRequest(table: CommandTable, r: Request, o: HandlerOutcome) returns (reply: seq<seq<Byte>>)
    requires table.Valid()
    ensures var v := Process(table.Entries(), r.cmd, r.payload, o);
            AreFrames(reply, if v.Replied? then [v.reply] else [])
  {
    var out := new Byte[256];
    var code, len := table.RouterProcess(r.cmd, r.payload, o, out);
    reply := if code == ERR_OK then [out[..len]] else [];
  }

  /** Handles the frame start at pos. */
  method AnswerEvent(table: CommandTable, buf: array<Byte>, n: nat, pos: nat, o: HandlerOutcome)
    returns (next: nat, reply: seq<seq<Byte>>)
    requires table.Valid() && n <= buf.Length && HeadAt(buf[..n], pos)
    ensures var b := buf[..n];
            var e := EventAt(b, pos);
            && next == EndOf(e) && EventIn(b, e)
            && AreFrames(reply, ReplyTo(table.Entries(), b, e, o))
  {
    var good, frameLen, r := CheckFrame(buf, n, pos);
    if good {
      next := pos + frameLen;
      reply := AnswerRequest(table, r, o);
    } else {
      var frame := BuildFrame(CMD_NONE, ERR_CHECKSUM, []);
      next := pos + 1;
      reply := [frame];
    }
  }
}
