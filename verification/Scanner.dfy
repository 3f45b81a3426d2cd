// The buffer scanner: what it finds in a buffer, why that is the greedy leftmost set of frames, and
// when cutting a stream into separate reads changes what is found.

module Scanner {
  import opened Seqs
  import opened Bytes
  import opened Requests

  // Dispatch: a whole valid frame, handed to the router. Refuse: a frame start that is answered F4.
  datatype Event = Dispatch(at: nat, size: nat) | Refuse(at: nat)

  function EndOf(e: Event): nat { if e.Dispatch? then e.at + e.size else e.at + 1 }

  /** The position carries a head and a legal length byte. */
  predicate HeadAt(b: seq<Byte>, p: nat) {
    p + 1 < |b| && b[p] == HEAD && 2 <= b[p + 1] <= SCANNER_LEN_MAX
  }

  /** The position starts a whole, well-formed frame. */
  predicate FrameAt(b: seq<Byte>, p: nat) {
    HeadAt(b, p) && p + FrameSize(b[p + 1]) <= |b|
    && IsFrame(b[p..p + FrameSize(b[p + 1])], SCANNER_LEN_MAX)
  }

  datatype Found = Found(events: seq<Event>, stop: nat)

  /** The scan from a position: all events in order, and the position where it stops. */
  function Scan(b: seq<Byte>, pos: nat): (f: Found)
    requires pos <= |b|
    ensures pos <= f.stop <= |b|
    decreases |b| - pos
  {
    if pos == |b| then Found([], pos)
    else if b[pos] != HEAD then Scan(b, pos + 1)
    else if pos + 1 >= |b| then Found([], pos)
    else if b[pos + 1] < 2 || b[pos + 1] > SCANNER_LEN_MAX then Scan(b, pos + 1)
    else
      var size := FrameSize(b[pos + 1]);
      if pos + size > |b| || !Sealed(b[pos..pos + size]) then
        var f := Scan(b, pos + 1);
        Found([Refuse(pos)] + f.events, f.stop)
      else
        var f := Scan(b, pos + size);
        Found([Dispatch(pos, size)] + f.events, f.stop)
  }

  lemma FrameAtIff(b: seq<Byte>, p: nat)
    requires HeadAt(b, p)
    ensures var size := FrameSize(b[p + 1]);
            FrameAt(b, p) <==> p + size <= |b| && Sealed(b[p..p + size])
  {
  }

  /** The first event at a position that carries a head and legal length byte. */
  function EventAt(b: seq<Byte>, p: nat): Event
    requires HeadAt(b, p)
  {
    if FrameAt(b, p) then Dispatch(p, FrameSize(b[p + 1])) else Refuse(p)
  }

  lemma ScanAtHead(b: seq<Byte>, p: nat)
    requires HeadAt(b, p)
    ensures var e := EventAt(b, p);
            e.at == p < EndOf(e) <= |b|
            && Scan(b, p) == Found([e] + Scan(b, EndOf(e)).events, Scan(b, EndOf(e)).stop)
  {
  }

  lemma ScanElsewhere(b: seq<Byte>, p: nat)
    requires p < |b| && !HeadAt(b, p)
    ensures Scan(b, p) == Scan(b, p + 1) || (p == |b| - 1 && b[p] == HEAD && Scan(b, p) == Found([], p))
  {
  }

  /** The event is what the position it names calls for. */
  predicate Fitting(b: seq<Byte>, e: Event) { HeadAt(b, e.at) && e == EventAt(b, e.at) }

  predicate InOrder(pos: nat, es: seq<Event>) {
    && (forall i :: 0 <= i < |es| ==> pos <= es[i].at)
    && (forall i, j :: 0 <= i < j < |es| ==> EndOf(es[i]) <= es[j].at)
  }

  ghost predicate Covered(es: seq<Event>, p: nat) {
    exists i :: 0 <= i < |es| && es[i].at <= p < EndOf(es[i])
  }

  ghost predicate Complete(b: seq<Byte>, pos: nat, es: seq<Event>) {
    forall p :: pos <= p < |b| && HeadAt(b, p) ==> Covered(es, p)
  }

  /** An event list is greedy from pos when its events come in order without overlap, each is what
      its position calls for, and every head with a legal length byte starts an event or lies inside
      an earlier dispatched frame. */
  ghost predicate Greedy(b: seq<Byte>, pos: nat, es: seq<Event>) {
    && InOrder(pos, es)
    && (forall i :: 0 <= i < |es| ==> Fitting(b, es[i]))
    && Complete(b, pos, es)
  }

  lemma CoveredCons(e: Event, es: seq<Event>, p: nat)
    ensures Covered([e] + es, p) <==> e.at <= p < EndOf(e) || Covered(es, p)
  {
    var all := [e] + es;
    if e.at <= p < EndOf(e) {
      assert all[0].at <= p < EndOf(all[0]);
    }
    if Covered(es, p) {
      var i :| 0 <= i < |es| && es[i].at <= p < EndOf(es[i]);
      assert all[i + 1].at <= p < EndOf(all[i + 1]);
    }
    if Covered(all, p) {
      var i :| 0 <= i < |all| && all[i].at <= p < EndOf(all[i]);
      assert i > 0 ==> es[i - 1] == all[i];
    }
  }

  lemma InOrderCons(pos: nat, e: Event, es: seq<Event>)
    requires e.at == pos < EndOf(e)
    ensures InOrder(pos, [e] + es) <==> InOrder(EndOf(e), es)
  {
    var all := [e] + es;
    assert forall i :: 0 <= i < |es| ==> es[i] == all[i + 1];
    if InOrder(pos, all) {
      assert all[0] == e;
    }
  }

  lemma CompleteCons(b: seq<Byte>, pos: nat, e: Event, es: seq<Event>)
    requires e.at == pos < EndOf(e) && InOrder(EndOf(e), es)
    ensures Complete(b, pos, [e] + es) <==> Complete(b, EndOf(e), es)
  {
    forall p | pos <= p < |b|
      ensures Covered([e] + es, p) <==> p < EndOf(e) || Covered(es, p)
    {
      CoveredCons(e, es, p);
    }
  }

  lemma GreedyCons(b: seq<Byte>, pos: nat, e: Event, es: seq<Event>)
    requires e.at == pos < EndOf(e) && Fitting(b, e)
    ensures Greedy(b, pos, [e] + es) <==> Greedy(b, EndOf(e), es)
  {
    InOrderCons(pos, e, es);
    if InOrder(EndOf(e), es) {
      CompleteCons(b, pos, e, es);
    }
    FittingCons(b, e, es);
  }

  lemma FittingCons(b: seq<Byte>, e: Event, es: seq<Event>)
    requires Fitting(b, e)
    ensures (forall i :: 0 <= i < |es| + 1 ==> Fitting(b, ([e] + es)[i]))
        <==> (forall i :: 0 <= i < |es| ==> Fitting(b, es[i]))
  {
    var all := [e] + es;
    assert all[0] == e && forall i :: 0 <= i < |es| ==> all[i + 1] == es[i];
  }

  lemma FirstEvent(b: seq<Byte>, pos: nat, es: seq<Event>)
    requires Greedy(b, pos, es) && es != []
    ensures pos <= es[0].at < |b| && Fitting(b, es[0])
  {
  }

  lemma GreedyStartsAtHead(b: seq<Byte>, pos: nat, es: seq<Event>)
    requires Greedy(b, pos, es) && HeadAt(b, pos)
    ensures es != [] && es[0] == EventAt(b, pos)
  {
    assert Covered(es, pos);
    var i :| 0 <= i < |es| && es[i].at <= pos < EndOf(es[i]);
    FirstEvent(b, pos, es);
    assert i > 0 ==> EndOf(es[0]) <= es[i].at;
  }

  lemma GreedyUncons(b: seq<Byte>, pos: nat, es: seq<Event>)
    requires Greedy(b, pos, es) && HeadAt(b, pos)
    ensures var e := EventAt(b, pos);
            pos < EndOf(e) <= |b| && es != [] && es == [e] + es[1..] && Greedy(b, EndOf(e), es[1..])
  {
    GreedyStartsAtHead(b, pos, es);
    ScanAtHead(b, pos);
    assert es == [es[0]] + es[1..];
    GreedyCons(b, pos, es[0], es[1..]);
  }

  lemma GreedySkips(b: seq<Byte>, pos: nat, es: seq<Event>)
    requires pos < |b| && !HeadAt(b, pos)
    ensures Greedy(b, pos, es) <==> Greedy(b, pos + 1, es)
  {
    if Greedy(b, pos, es) {
      forall i | 0 <= i < |es| ensures pos + 1 <= es[i].at {
        assert Fitting(b, es[i]);
      }
    }
  }

  /** The scan produces the greedy event list... */
  lemma {:induction false} ScanIsGreedy(b: seq<Byte>, pos: nat)
    requires pos <= |b|
    ensures Greedy(b, pos, Scan(b, pos).events)
    decreases |b| - pos
  {
    if pos < |b| {
      if HeadAt(b, pos) {
        var e := EventAt(b, pos);
        ScanAtHead(b, pos);
        ScanIsGreedy(b, EndOf(e));
        GreedyCons(b, pos, e, Scan(b, EndOf(e)).events);
      } else {
        ScanElsewhere(b, pos);
        ScanIsGreedy(b, pos + 1);
        GreedySkips(b, pos, Scan(b, pos + 1).events);
      }
    }
  }

  /** ... and there is no other. */
  lemma {:induction false} GreedyIsUnique(b: seq<Byte>, pos: nat, es: seq<Event>)
    requires pos <= |b| && Greedy(b, pos, es)
    ensures es == Scan(b, pos).events
    decreases |b| - pos
  {
    if pos == |b| {
      if es != [] {
        FirstEvent(b, pos, es);
      }
    } else if HeadAt(b, pos) {
      GreedyUncons(b, pos, es);
      ScanAtHead(b, pos);
      GreedyIsUnique(b, EndOf(EventAt(b, pos)), es[1..]);
    } else {
      ScanElsewhere(b, pos);
      GreedySkips(b, pos, es);
      GreedyIsUnique(b, pos + 1, es);
    }
  }

  /** Where a scan stops: at the end, or at a lone head in the last byte. */
  lemma {:induction false} ScanStop(b: seq<Byte>, pos: nat)
    requires pos <= |b|
    ensures var stop := Scan(b, pos).stop;
            stop == |b| || (stop == |b| - 1 && b[stop] == HEAD)
    ensures forall e :: e in Scan(b, pos).events ==> pos <= e.at && EndOf(e) <= Scan(b, pos).stop
    decreases |b| - pos
  {
    if pos < |b| {
      if HeadAt(b, pos) {
        ScanAtHead(b, pos);
        ScanStop(b, EndOf(EventAt(b, pos)));
      } else {
        ScanElsewhere(b, pos);
        ScanStop(b, pos + 1);
      }
    }
  }

  // --- The scan as a loop ---

  /** The events found before pos, followed by those of the scan from pos, are all events. */
  ghost predicate ScanSplit(b: seq<Byte>, done: seq<Event>, pos: nat)
    requires pos <= |b|
  {
    Scan(b, 0) == Found(done + Scan(b, pos).events, Scan(b, pos).stop)
  }

  lemma SplitSkip(b: seq<Byte>, done: seq<Event>, pos: nat)
    requires pos < |b| && ScanSplit(b, done, pos) && !HeadAt(b, pos)
    requires b[pos] == HEAD ==> pos + 1 < |b|
    ensures ScanSplit(b, done, pos + 1)
  {
    ScanElsewhere(b, pos);
  }

  lemma SplitEvent(b: seq<Byte>, done: seq<Event>, pos: nat)
    requires pos < |b| && ScanSplit(b, done, pos) && HeadAt(b, pos)
    ensures EndOf(EventAt(b, pos)) <= |b| && ScanSplit(b, done + [EventAt(b, pos)], EndOf(EventAt(b, pos)))
  {
    ScanAtHead(b, pos);
    Assoc(done, [EventAt(b, pos)], Scan(b, EndOf(EventAt(b, pos))).events);
  }

  lemma SplitEnd(b: seq<Byte>, done: seq<Event>, pos: nat)
    requires pos <= |b| && ScanSplit(b, done, pos)
    requires pos == |b| || (pos + 1 == |b| && b[pos] == HEAD)
    ensures Scan(b, 0) == Found(done, pos)
  {
  }
}
