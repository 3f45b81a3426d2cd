// A TCP stream arrives in reads of any size. After every read the scanner runs to the end of what
// it has and keeps at most one byte. This file settles exactly when that finds the same events as
// one scan of the whole stream.

module SplitReads {
  import opened Bytes
  import opened Requests
  import opened Scanner

  function Moved(e: Event, k: nat): Event {
    if e.Dispatch? then Dispatch(e.at + k, e.size) else Refuse(e.at + k)
  }

  function Shift(es: seq<Event>, k: nat): (r: seq<Event>)
    ensures |r| == |es|
  {
    if es == [] then [] else [Moved(es[0], k)] + Shift(es[1..], k)
  }

  lemma ShiftCons(e: Event, es: seq<Event>, k: nat)
    ensures Shift([e] + es, k) == [Moved(e, k)] + Shift(es, k)
  {
    assert ([e] + es)[1..] == es;
  }

  function Joined(chunks: seq<seq<Byte>>): seq<Byte> {
    if chunks == [] then [] else chunks[0] + Joined(chunks[1..])
  }

  /** The events found when the chunks are read one after the other, in stream positions: carry is
      what the previous read left in the buffer, base the stream position of its first byte. */
  function Feed(carry: seq<Byte>, base: nat, chunks: seq<seq<Byte>>): seq<Event>
    decreases |chunks|
  {
    if chunks == [] then []
    else
      var buf := carry + chunks[0];
      var f := Scan(buf, 0);
      Shift(f.events, base) + Feed(buf[f.stop..], base + f.stop, chunks[1..])
  }

  predicate Cuts(e: Event, q: nat) { e.Dispatch? && e.at + 1 < q < EndOf(e) }

  /** The boundary q falls inside a frame dispatched by the unsplit scan, after its length byte. */
  ghost predicate CutAt(s: seq<Byte>, pos: nat, q: nat)
    requires pos <= |s|
  {
    exists e :: e in Scan(s, pos).events && Cuts(e, q)
  }

  /** No boundary between the chunks, the first of which starts at base, cuts a frame. */
  ghost predicate NoCut(s: seq<Byte>, pos: nat, base: nat, chunks: seq<seq<Byte>>)
    requires pos <= |s|
    decreases |chunks|
  {
    chunks == []
    || (!CutAt(s, pos, base + |chunks[0]|) && NoCut(s, pos, base + |chunks[0]|, chunks[1..]))
  }

  lemma SuffixEvent(s: seq<Byte>, k: nat, p: nat)
    requires k + p < |s|
    ensures HeadAt(s[k..], p) <==> HeadAt(s, k + p)
    ensures HeadAt(s, k + p) ==> EventAt(s, k + p) == Moved(EventAt(s[k..], p), k)
  {
    var t := s[k..];
    assert t[p] == s[k + p];
    if HeadAt(t, p) {
      var size := FrameSize(t[p + 1]);
      assert p + size <= |t| ==> t[p..p + size] == s[k + p..k + p + size];
    }
  }

  /** Scanning a suffix is scanning the whole from there. */
  lemma {:induction false} ScanSuffix(s: seq<Byte>, k: nat, p: nat)
    requires k + p <= |s|
    ensures Shift(Scan(s[k..], p).events, k) == Scan(s, k + p).events
    ensures Scan(s[k..], p).stop + k == Scan(s, k + p).stop
    decreases |s| - p, 1
  {
    var t := s[k..];
    if p < |t| {
      SuffixEvent(s, k, p);
      if HeadAt(t, p) {
        SuffixAtHead(s, k, p, t);
      } else {
        assert t[p] == s[k + p];
        ScanElsewhere(t, p);
        ScanElsewhere(s, k + p);
        if Scan(t, p) == Scan(t, p + 1) {
          ScanSuffix(s, k, p + 1);
        }
      }
    }
  }

  lemma {:induction false} SuffixAtHead(s: seq<Byte>, k: nat, p: nat, t: seq<Byte>)
    requires k + p <= |s| && t == s[k..] && HeadAt(t, p)
    ensures Shift(Scan(t, p).events, k) == Scan(s, k + p).events
    ensures Scan(t, p).stop + k == Scan(s, k + p).stop
    decreases |s| - p, 0
  {
    SuffixEvent(s, k, p);
    ScanAtHead(t, p);
    ScanAtHead(s, k + p);
    var e := EventAt(t, p);
    ShiftCons(e, Scan(t, EndOf(e)).events, k);
    ScanSuffix(s, k, EndOf(e));
  }

  lemma CutAtCons(s: seq<Byte>, pos: nat, q: nat)
    requires HeadAt(s, pos)
    ensures EndOf(EventAt(s, pos)) <= |s|
    ensures CutAt(s, pos, q) <==> Cuts(EventAt(s, pos), q) || CutAt(s, EndOf(EventAt(s, pos)), q)
  {
    ScanAtHead(s, pos);
    var e := EventAt(s, pos);
    assert e in Scan(s, pos).events;
    var rest := Scan(s, EndOf(e)).events;
    assert forall x :: x in [e] + rest <==> x == e || x in rest;
  }

  lemma NoCutBehind(s: seq<Byte>, pos: nat, q: nat)
    requires q <= pos + 1 && pos <= |s|
    ensures !CutAt(s, pos, q)
  {
    ScanStop(s, pos);
  }

  /** With more bytes behind it, an event found in a prefix is the same or becomes a dispatch that
      the end of the prefix cuts. */
  lemma EventGrows(a: seq<Byte>, b: seq<Byte>, pos: nat)
    requires HeadAt(a, pos)
    ensures HeadAt(a + b, pos) && EndOf(EventAt(a, pos)) <= |a|
    ensures EventAt(a, pos) != EventAt(a + b, pos) <==> Cuts(EventAt(a + b, pos), |a|)
  {
    var s, size := a + b, FrameSize(a[pos + 1]);
    assert s[pos] == a[pos] && s[pos + 1] == a[pos + 1];
    ScanAtHead(a, pos);
    if pos + size <= |a| {
      assert s[pos..pos + size] == a[pos..pos + size];
    }
  }

  /** The scan of a prefix is the beginning of the scan of the whole, which goes on from where the
      prefix stopped. */
  ghost predicate Continues(a: seq<Byte>, s: seq<Byte>, pos: nat)
    requires pos <= |a| <= |s|
  {
    Scan(s, pos).events == Scan(a, pos).events + Scan(s, Scan(a, pos).stop).events
  }

  lemma PrefixScanCut(a: seq<Byte>, b: seq<Byte>, pos: nat)
    requires HeadAt(a, pos) && HeadAt(a + b, pos) && Cuts(EventAt(a + b, pos), |a|)
    ensures CutAt(a + b, pos, |a|) && !(Scan(a, pos).events <= Scan(a + b, pos).events)
  {
    EventGrows(a, b, pos);
    ScanAtHead(a, pos);
    ScanAtHead(a + b, pos);
    assert Scan(a, pos).events[0] == EventAt(a, pos);
    assert Scan(a + b, pos).events[0] == EventAt(a + b, pos);
    assert EventAt(a + b, pos) in Scan(a + b, pos).events;
  }

  lemma {:induction false} PrefixScanSame(a: seq<Byte>, b: seq<Byte>, pos: nat)
    requires HeadAt(a, pos) && HeadAt(a + b, pos) && !Cuts(EventAt(a + b, pos), |a|)
    ensures var s, next := a + b, EndOf(EventAt(a, pos));
            && pos < next <= |a|
            && (CutAt(s, pos, |a|) <==> CutAt(s, next, |a|))
            && (Continues(a, s, pos) <==> Continues(a, s, next))
            && (Scan(a, pos).events <= Scan(s, pos).events <==> Scan(a, next).events <= Scan(s, next).events)
  {
    var s := a + b;
    EventGrows(a, b, pos);
    var e := EventAt(a, pos);
    assert e == EventAt(s, pos);
    CutAtCons(s, pos, |a|);
    ScanAtHead(a, pos);
    ScanAtHead(s, pos);
    PrependBoth(e, Scan(a, EndOf(e)).events, Scan(s, EndOf(e)).events, Scan(s, Scan(a, pos).stop).events);
  }

  lemma PrependBoth(e: Event, xs: seq<Event>, ys: seq<Event>, zs: seq<Event>)
    ensures [e] + xs <= [e] + ys <==> xs <= ys
    ensures [e] + ys == [e] + xs + zs <==> ys == xs + zs
  {
    assert ([e] + xs)[1..] == xs && ([e] + ys)[1..] == ys;
    assert [e] + xs + zs == [e] + (xs + zs) && ([e] + (xs + zs))[1..] == xs + zs;
    if xs <= ys {
      assert ys == xs + ys[|xs|..];
      assert [e] + ys == ([e] + xs) + ys[|xs|..];
    }
    if [e] + xs <= [e] + ys {
      assert ([e] + ys)[..|xs| + 1][1..] == ys[..|xs|];
    }
  }

  /** It is so exactly when the end of the prefix cuts no dispatched frame. */
  lemma {:induction false} PrefixScan(a: seq<Byte>, b: seq<Byte>, pos: nat)
    requires pos <= |a|
    ensures !CutAt(a + b, pos, |a|) ==> Continues(a, a + b, pos)
    ensures CutAt(a + b, pos, |a|) ==> !(Scan(a, pos).events <= Scan(a + b, pos).events)
    decreases |a| - pos
  {
    var s := a + b;
    if HeadAt(a, pos) {
      EventGrows(a, b, pos);
      if Cuts(EventAt(s, pos), |a|) {
        PrefixScanCut(a, b, pos);
      } else {
        PrefixScanSame(a, b, pos);
        PrefixScan(a, b, EndOf(EventAt(a, pos)));
      }
    } else if pos + 1 < |a| || (pos < |a| && a[pos] != HEAD) {
      assert s[pos] == a[pos] && !HeadAt(s, pos);
      ScanElsewhere(a, pos);
      ScanElsewhere(s, pos);
      PrefixScan(a, b, pos + 1);
    } else {
      NoCutBehind(s, pos, |a|);
      assert Scan(a, pos) == Found([], pos);
    }
  }

  /** Events that end before the boundaries do not matter for cuts. */
  lemma {:induction false} NoCutFromLater(s: seq<Byte>, pos: nat, later: nat, base: nat, chunks: seq<seq<Byte>>, es: seq<Event>)
    requires pos <= later <= base && later <= |s|
    requires Scan(s, pos).events == es + Scan(s, later).events
    requires forall e :: e in es ==> EndOf(e) <= later
    ensures NoCut(s, pos, base, chunks) <==> NoCut(s, later, base, chunks)
    decreases |chunks|
  {
    if chunks != [] {
      var q := base + |chunks[0]|;
      assert forall e :: e in Scan(s, pos).events <==> e in es || e in Scan(s, later).events;
      assert CutAt(s, pos, q) <==> CutAt(s, later, q);
      NoCutFromLater(s, pos, later, q, chunks[1..], es);
    }
  }

  /** One read: the events of the buffer are those of the stream prefix it completes. */
  lemma OneRead(s: seq<Byte>, pos: nat, base: nat, q: nat)
    requires pos <= base <= q <= |s|
    ensures var buf := s[pos..base] + s[base..q];
            Shift(Scan(buf, 0).events, pos) == Scan(s[..q], pos).events
            && buf[Scan(buf, 0).stop..] == s[Scan(s[..q], pos).stop..q]
            && pos + Scan(buf, 0).stop == Scan(s[..q], pos).stop
  {
    var buf := s[pos..base] + s[base..q];
    assert buf == s[..q][pos..];
    ScanSuffix(s[..q], pos, 0);
    assert buf[Scan(buf, 0).stop..] == s[Scan(s[..q], pos).stop..q];
  }

  lemma FirstChunk(s: seq<Byte>, base: nat, chunks: seq<seq<Byte>>)
    requires base <= |s| && chunks != [] && s[base..] == Joined(chunks)
    ensures var q := base + |chunks[0]|;
            q <= |s| && s[base..q] == chunks[0] && s[q..] == Joined(chunks[1..])
  {
    var q := base + |chunks[0]|;
    assert s[base..q] == s[base..][..|chunks[0]|] && s[q..] == s[base..][|chunks[0]|..];
  }

  /** Feeding goes on after one read with what that read left over; carry is what is in front of base. */
  lemma FeedOne(s: seq<Byte>, pos: nat, base: nat, carry: seq<Byte>, chunks: seq<seq<Byte>>)
    requires pos <= base <= |s| && carry == s[pos..base] && chunks != [] && s[base..] == Joined(chunks)
    ensures var q := base + |chunks[0]|;
            q <= |s| && s[q..] == Joined(chunks[1..])
            && var fa := Scan(s[..q], pos);
            var left := s[fa.stop..q];
            && Feed(carry, pos, chunks) == fa.events + Feed(left, fa.stop, chunks[1..])
            && (left == [] || left == [HEAD])
  {
    var q := base + |chunks[0]|;
    FirstChunk(s, base, chunks);
    OneRead(s, pos, base, q);
    ScanStop(s[..q], pos);
    var stop := Scan(s[..q], pos).stop;
    assert stop < q ==> s[stop..q] == [s[..q][stop]];
  }

  /** The whole scan begins with the events of the first read and goes on where they end, unless the
      read is cut. */
  lemma FirstRead(s: seq<Byte>, pos: nat, q: nat)
    requires pos <= q <= |s|
    ensures var fa := Scan(s[..q], pos);
            !CutAt(s, pos, q) ==>
              && pos <= fa.stop <= q && (forall e :: e in fa.events ==> EndOf(e) <= fa.stop)
              && Scan(s, pos).events == fa.events + Scan(s, fa.stop).events
    ensures CutAt(s, pos, q) ==> !(Scan(s[..q], pos).events <= Scan(s, pos).events)
  {
    assert s == s[..q] + s[q..];
    PrefixScan(s[..q], s[q..], pos);
    ScanStop(s[..q], pos);
  }

  lemma {:induction false} FeedFrom(s: seq<Byte>, pos: nat, base: nat, carry: seq<Byte>, chunks: seq<seq<Byte>>)
    requires pos <= base <= |s| && carry == s[pos..base] && s[base..] == Joined(chunks)
    requires carry == [] || carry == [HEAD]
    ensures Feed(carry, pos, chunks) == Scan(s, pos).events <==> NoCut(s, pos, base, chunks)
    decreases |chunks|
  {
    if chunks == [] {
      assert pos < |s| ==> s[pos] == carry[0];
    } else {
      var q := base + |chunks[0]|;
      FeedOne(s, pos, base, carry, chunks);
      FirstRead(s, pos, q);
      var fa := Scan(s[..q], pos);
      if !CutAt(s, pos, q) {
        FeedFrom(s, fa.stop, q, s[fa.stop..q], chunks[1..]);
        NoCutFromLater(s, pos, fa.stop, q, chunks[1..], fa.events);
        SamePrefix(fa.events, Feed(s[fa.stop..q], fa.stop, chunks[1..]), Scan(s, fa.stop).events);
      }
    }
  }

  lemma SamePrefix(xs: seq<Event>, ys: seq<Event>, zs: seq<Event>)
    ensures xs + ys == xs + zs <==> ys == zs
  {
    assert (xs + ys)[|xs|..] == ys && (xs + zs)[|xs|..] == zs;
  }

  /** Reading in chunks finds what one scan of the whole stream finds if and only if no boundary
      between two reads falls inside a frame the whole scan dispatches, other than right behind its
      head byte. */
  lemma SplitReadsIff(chunks: seq<seq<Byte>>)
    ensures Feed([], 0, chunks) == Scan(Joined(chunks), 0).events <==> NoCut(Joined(chunks), 0, 0, chunks)
  {
    var s := Joined(chunks);
    assert s[0..0] == [] && s[0..] == s;
    FeedFrom(s, 0, 0, [], chunks);
  }

  /** The sample frame 40 02 02 BC, cut in the middle: the unsplit stream dispatches it, the two
      reads refuse its first half and lose the second. */
  lemma CutSampleIsLost()
    ensures Scan([0x40, 0x02, 0x02, 0xBC], 0).events == [Dispatch(0, 4)]
    ensures Feed([], 0, [[0x40, 0x02], [0x02, 0xBC]]) == [Refuse(0)]
  {
    var s: seq<Byte> := [0x40, 0x02, 0x02, 0xBC];
    var c1: seq<Byte>, c2: seq<Byte> := [0x40, 0x02], [0x02, 0xBC];
    assert s[0..4] == s && s == [0x40, 0x02, 0x02] + [0xBC];
    var body: seq<Byte> := [0x40, 0x02, 0x02];
    assert SumTo(body, 3) == SumTo(body, 2) + 2 == SumTo(body, 1) + 4 == SumTo(body, 0) + 0x44;
    SealedByLastByte([0x40, 0x02, 0x02], 0xBC);
    assert [] + c1 == c1;
    assert Scan(c1, 0) == Found([Refuse(0)], 2);
    assert c1[2..] + c2 == c2;
    assert Scan(c2, 0) == Found([], 2);
    assert [c1, c2][1..] == [c2] && [c2][1..] == [];
  }
}
