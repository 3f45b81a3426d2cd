// From the requests a client sends to the responses it decodes.

module EndToEnd {
  import opened Bytes
  import opened Requests
  import opened Responses
  import opened Scanner
  import opened SplitReads
  import opened Decoders
  import opened Router
  import opened Gateway
  import opened Histories
  import opened Runs
  import opened Inputs

  function Sent(us: seq<Unit>): (r: seq<Option<Request>>)
    ensures |r| == |us| && forall i :: 0 <= i < |us| ==> r[i] == Some(us[i].request)
  {
    seq(|us|, i requires 0 <= i < |us| => Some(us[i].request))
  }

  predicate OnlyDispatches(es: seq<Event>) { forall i :: 0 <= i < |es| ==> es[i].Dispatch? }

  /** When nothing is refused, what is dispatched under numbers is what is taken. */
  lemma {:induction false} DispatchedIsHeard(b: seq<Byte>, es: seq<Event>, next: U32, us: seq<Unit>)
    requires Within(b, es) && AllIn(b, es) && OnlyDispatches(es)
    requires Dispatched(b, es, next) == Decoders.Numbered(us, next)
    ensures Heard(b, es) == Sent(us)
    decreases |es|
  {
    if es != [] && us != [] {
      var gets := Dispatched(b, es, next);
      assert gets[0] == Got(Parsed(b[es[0].at..es[0].at + es[0].size]), next);
      assert gets[1..] == Dispatched(b, es[1..], Inc32(next));
      assert Decoders.Numbered(us, next)[1..] == Decoders.Numbered(us[1..], Inc32(next));
      DispatchedIsHeard(b, es[1..], Inc32(next), us[1..]);
      assert es == [es[0]] + es[1..] && Sent(us) == [Some(us[0].request)] + Sent(us[1..]);
      assert Heard(b, [es[0]]) == [HeardIn(b, es[0])];
    }
  }

  /** A scan of a clean stream takes its requests. */
  lemma CleanStreamHeard(us: seq<Unit>, tail: seq<Byte>)
    requires Clean(us, SCANNER_LEN_MAX) && Quiet(tail)
    ensures Clean(us, FSM_LEN_MAX)
    ensures var s := Flatten(us, tail);
            AllIn(s, Scan(s, 0).events) && Heard(s, Scan(s, 0).events) == Sent(us)
  {
    CleanForBoth(us);
    var s := Flatten(us, tail);
    var es := Scan(s, 0).events;
    assert s[0..] == s;
    CleanStreamScanned(s, 0, us, tail, 0);
    ScanEventsIn(s, 0);
    forall i | 0 <= i < |es| ensures es[i].Dispatch? {
      assert es[i] in es;
    }
    DispatchedIsHeard(s, es, 0, us);
  }

  /** The responses answer the requests at these positions: the positions rise, and each response is
      what came out of the one call that was made for its request, with that request's command and
      parameters. */
  predicate AnswersTo(rs: seq<Response>, ran: map<Id, Call>, fd: int, us: seq<Unit>, at: seq<int>) {
    && |at| == |rs|
    && (forall i, j :: 0 <= i < j < |at| ==> at[i] < at[j])
    && (forall i :: 0 <= i < |at| ==> 0 <= at[i] < |us| && AnswersUnit(rs[i], ran, fd, us[at[i]], at[i]))
  }

  predicate AnswersUnit(r: Response, ran: map<Id, Call>, fd: int, u: Unit, n: int) {
    && 0 <= n < U32_MOD && Id(fd, n) in ran
    && ran[Id(fd, n)].request == u.request && Tells(r, u.request.cmd, ran[Id(fd, n)].outcome)
  }

  /** A client that sends requests separated by bytes other than 0x40, none of which a read boundary
      cuts: over every run of the gateway that does not disturb its connection the session takes in
      exactly these requests, the n-th of them under number n. The responses the client decodes are the
      first ones queued for it, in the order in which it sent the requests, at most one for each, and
      each is the outcome of running its request. */
  lemma RequestsToResponses(table: seq<Entry>, maxRequest: int, steps: seq<Step>, fd: int, us: seq<Unit>, tail: seq<Byte>)
    returns (at: seq<int>)
    requires maxRequest > 1 && AllUndisturbed(Start(table, maxRequest), steps, fd)
    requires us != [] && |us| < U32_MOD && Clean(us, SCANNER_LEN_MAX) && Clean(us, FSM_LEN_MAX) && Quiet(tail)
    requires Joined(Chunks(steps, fd)) == Flatten(us, tail)
    requires NoCut(Flatten(us, tail), 0, 0, Chunks(steps, fd))
    ensures var h := Exec(Start(table, maxRequest), steps);
            && AskedBy(h, fd) == Sent(us)
            && fd in h.sessions
            && var s := h.sessions[fd];
            && |at| <= |s.queued| && at == QueuedSeqs(s.queued)[..|at|]
            && AnswersTo(DecodeStream(s.accepted).responses, h.ran, fd, us, at)
  {
    var g, h := Start(table, maxRequest), Exec(Start(table, maxRequest), steps);
    ReachableInv(table, maxRequest, []);
    StreamIsTaken(g, fd, steps);
    CleanStreamHeard(us, tail);
    at := ClientGetsAnswersInOrder(table, maxRequest, steps, fd);
    var rs := DecodeStream(h.sessions[fd].accepted).responses;
    forall i | 0 <= i < |at| ensures 0 <= at[i] < |us| && AnswersUnit(rs[i], h.ran, fd, us[at[i]], at[i]) {
      assert AnswersNumber(rs[i], h, fd, at[i]);
      assert h.sessions[fd].asked[at[i]] == Sent(us)[at[i]];
    }
  }
}
