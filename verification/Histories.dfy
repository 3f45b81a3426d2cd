// The histories of a gateway read off per connection, and how one entry extends them.

module Histories {
  import opened Seqs
  import opened Responses
  import opened Gateway

  function Iota(n: nat): (s: seq<int>)
    ensures |s| == n && forall i :: 0 <= i < n ==> s[i] == i
  {
    seq(n, i => i)
  }

  lemma IotaNext(n: nat)
    ensures Iota(n + 1) == Iota(n) + [n]
  {
  }

  /** The sequence numbers issued to a connection, in order. */
  function IssuedFor(issued: seq<Id>, fd: int): seq<int> {
    if issued == [] then []
    else
      var last := issued[|issued| - 1];
      IssuedFor(issued[..|issued| - 1], fd) + if last.fd == fd then [last.seqNo] else []
  }

  /** The sequence numbers answered on a connection, in order. */
  function LogFor(log: seq<Answer>, fd: int): seq<int> {
    if log == [] then []
    else
      var last := log[|log| - 1];
      LogFor(log[..|log| - 1], fd) + if last.fd == fd then [last.seqNo] else []
  }

  predicate ByRing(how: How) { how == RingSync || how == RingAsync }

  /** The sequence numbers answered through the ring of a connection, in order. */
  function RingFor(log: seq<Answer>, fd: int): seq<int> {
    if log == [] then []
    else
      var last := log[|log| - 1];
      RingFor(log[..|log| - 1], fd) + if last.fd == fd && ByRing(last.how) then [last.seqNo] else []
  }

  /** All answers so far, as a bag of requests. */
  function LogIds(log: seq<Answer>): multiset<Id> {
    if log == [] then multiset{}
    else
      var last := log[|log| - 1];
      LogIds(log[..|log| - 1]) + multiset{Id(last.fd, last.seqNo)}
  }

  /** Every answer on the connection came out of the flush while the session lived. */
  predicate OnlyAsync(log: seq<Answer>, fd: int) {
    forall i :: 0 <= i < |log| && log[i].fd == fd ==> log[i].how == RingAsync || log[i].how == Busy
  }

  lemma LogGrows(log: seq<Answer>, a: Answer, fd: int)
    ensures LogFor(log + [a], fd) == LogFor(log, fd) + if a.fd == fd then [a.seqNo] else []
    ensures RingFor(log + [a], fd) == RingFor(log, fd) + if a.fd == fd && ByRing(a.how) then [a.seqNo] else []
    ensures LogIds(log + [a]) == LogIds(log) + multiset{Id(a.fd, a.seqNo)}
  {
    assert (log + [a])[..|log|] == log;
  }

  lemma OnlyAsyncGrows(log: seq<Answer>, a: Answer, fd: int)
    ensures OnlyAsync(log + [a], fd)
        <==> OnlyAsync(log, fd) && (a.fd == fd ==> a.how == RingAsync || a.how == Busy)
  {
    assert forall i :: 0 <= i < |log| ==> (log + [a])[i] == log[i];
    assert (log + [a])[|log|] == a;
  }

  lemma IssuedGrows(issued: seq<Id>, id: Id, fd: int)
    ensures IssuedFor(issued + [id], fd) == IssuedFor(issued, fd) + if id.fd == fd then [id.seqNo] else []
  {
    assert (issued + [id])[..|issued|] == issued;
  }

  /** A connection that nothing was recorded for. */
  lemma {:induction false} NothingFor(issued: seq<Id>, log: seq<Answer>, fd: int)
    requires (forall i :: 0 <= i < |issued| ==> issued[i].fd != fd) && (forall i :: 0 <= i < |log| ==> log[i].fd != fd)
    ensures IssuedFor(issued, fd) == [] && LogFor(log, fd) == [] && RingFor(log, fd) == []
    decreases |issued|, |log|
  {
    if issued != [] {
      NothingFor(issued[..|issued| - 1], [], fd);
    }
    if log != [] {
      NothingFor([], log[..|log| - 1], fd);
    }
  }

  /** The tasks that occupy slots, as a bag of requests. */
  function Outstanding(slots: seq<Task>): multiset<Id> {
    if slots == [] then multiset{}
    else Outstanding(slots[..|slots| - 1]) + IdOf(slots[|slots| - 1])
  }

  function IdOf(t: Task): multiset<Id> {
    if t.valid then multiset{Id(t.fd, t.seqNo)} else multiset{}
  }

  lemma {:induction false} OutstandingUpdate(slots: seq<Task>, i: nat, t: Task)
    requires i < |slots|
    ensures Outstanding(slots[i := t]) + IdOf(slots[i]) == Outstanding(slots) + IdOf(t)
    decreases |slots|
  {
    var n := |slots| - 1;
    var init := slots[..n];
    if i == n {
      assert slots[i := t][..n] == init;
    } else {
      assert slots[i := t][..n] == init[i := t] && slots[i := t][n] == slots[n];
      OutstandingUpdate(init, i, t);
      AddBehind(Outstanding(init[i := t]), IdOf(slots[i]), Outstanding(init), IdOf(t), IdOf(slots[n]));
    }
  }

  /** Slots with the same occupants hold the same bag. */
  lemma {:induction false} OutstandingSame(a: seq<Task>, b: seq<Task>)
    requires |a| == |b| && forall i :: 0 <= i < |a| ==> IdOf(a[i]) == IdOf(b[i])
    ensures Outstanding(a) == Outstanding(b)
    decreases |a|
  {
    if a != [] {
      OutstandingSame(a[..|a| - 1], b[..|b| - 1]);
    }
  }

  lemma {:induction false} NoneOutstanding(n: nat)
    ensures Outstanding(seq(n, _ => FREE_TASK)) == multiset{}
  {
    if n > 0 {
      var s := seq(n, _ => FREE_TASK);
      assert s[..n - 1] == seq(n - 1, _ => FREE_TASK);
      NoneOutstanding(n - 1);
    }
  }

  // --- The frames queued on a session ---

  function Replies(queued: seq<Queued>): (rs: seq<Response>)
    ensures |rs| == |queued| && AllEncodable(rs)
    ensures forall i :: 0 <= i < |queued| ==> rs[i] == queued[i].reply
  {
    seq(|queued|, i requires 0 <= i < |queued| => queued[i].reply)
  }

  function QueuedSeqs(queued: seq<Queued>): (s: seq<int>)
    ensures |s| == |queued| && forall i :: 0 <= i < |s| ==> s[i] == queued[i].seqNo
  {
    seq(|queued|, i requires 0 <= i < |queued| => queued[i].seqNo)
  }

  predicate Increasing(queued: seq<Queued>, bound: int) {
    && (forall i, j :: 0 <= i < j < |queued| ==> queued[i].seqNo < queued[j].seqNo)
    && (forall i :: 0 <= i < |queued| ==> queued[i].seqNo < bound)
  }

  lemma QueuedGrows(queued: seq<Queued>, q: Queued)
    ensures Replies(queued + [q]) == Replies(queued) + [q.reply]
    ensures QueuedSeqs(queued + [q]) == QueuedSeqs(queued) + [q.seqNo as int]
  {
  }
}
