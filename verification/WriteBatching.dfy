/** Merging queued packets into one vectored write (netty/channel.go) and cutting them apart again in
    the UDP transport (netty/transport/udp/transport.go). */
module WriteBatching {
  import opened Bits

  /** A packet is the list of buffers one Write or Writev call put on the queue. */
  type Packet = seq<seq<byte>>

  function Max(a: int, b: int): int {
    if a > b then a else b
  }

  function Flatten(ps: seq<Packet>): seq<seq<byte>> {
    if ps == [] then [] else Flatten(ps[..|ps| - 1]) + ps[|ps| - 1]
  }

  /** After each packet, how many buffers there are so far. */
  function Ends(ps: seq<Packet>): (e: seq<nat>)
    ensures |e| == |ps|
  {
    if ps == [] then [] else Ends(ps[..|ps| - 1]) + [|Flatten(ps)|]
  }

  /** Consecutive slices of the buffers, ending at the given indexes. */
  function Slices(buffers: seq<seq<byte>>, indexes: seq<nat>, from: nat): (r: seq<Packet>)
    requires Ascending(indexes, from, |buffers|)
    ensures |r| == |indexes|
  {
    if indexes == [] then []
    else [buffers[from..indexes[0]]] + Slices(buffers, indexes[1..], indexes[0])
  }

  /** The slices exist: the indexes never go back and stay inside the buffers. */
  predicate Ascending(indexes: seq<nat>, from: nat, limit: nat) {
    if indexes == [] then from <= limit
    else from <= indexes[0] <= limit && Ascending(indexes[1..], indexes[0], limit)
  }

  // ----- the two loops -----

  class Writer {
    const capacity: nat
    var buffers: seq<seq<byte>>
    var indexes: seq<nat>

    constructor (capacity: nat)
      ensures this.capacity == capacity
    {
      this.capacity := capacity;
      buffers, indexes := [], [];
    }

    /** The merging loop of sendWithWritev. `found` is what its non-blocking receives find on the
        queue, one by one, before they find it empty. */
    method Merge(data: Packet, found: seq<Packet>) returns (taken: nat)
      modifies this
      ensures taken == if |found| < Max(1, capacity - 1) then |found| else Max(1, capacity - 1)
      ensures taken + 1 <= Max(2, capacity)
      ensures buffers == Flatten([data] + found[..taken])
      ensures indexes == Ends([data] + found[..taken])
    {
      hide Flatten, Ends;
      buffers, indexes := [], [];
      buffers := buffers + data;
      indexes := indexes + [|buffers|];
      taken := 0;
      ghost var merged := [data];
      MergeOne([], data);
      assert [] + [data] == [data] && [data] + found[..0] == [data];
      while taken < |found|
        invariant 0 <= taken <= |found| && taken < Max(1, capacity - 1)
        invariant merged == [data] + found[..taken]
        invariant buffers == Flatten(merged) && indexes == Ends(merged)
      {
        MergeOne(merged, found[taken]);
        buffers := buffers + found[taken];
        indexes := indexes + [|buffers|];
        merged := merged + [found[taken]];
        taken := taken + 1;
        assert merged == [data] + found[..taken];
        if |indexes| >= capacity {
          return;
        }
      }
    }
  }

  /** The outcome of one datagram: the bytes the socket took, and whether it reported an error. */
  datatype Sent = Sent(bytes: int, failed: bool)

  /** The bytes taken by the first k datagrams; a negative report counts as none. */
  function Taken(socket: (nat, Packet) -> Sent, ps: seq<Packet>, k: nat): nat
    requires k <= |ps|
  {
    if k == 0 then 0 else Taken(socket, ps, k - 1) + Max(0, socket(k - 1, ps[k - 1]).bytes)
  }

  /** udpClientTransport.Writev: one datagram per slice, stopping at the first error. */
  method Writev(buffers: seq<seq<byte>>, indexes: seq<nat>, socket: (nat, Packet) -> Sent)
    returns (sent: nat, n: int, failed: bool)
    requires Ascending(indexes, 0, |buffers|)
    ensures var ps := Slices(buffers, indexes, 0);
            && sent <= |ps| && (failed <==> sent < |ps|)
            && (forall k :: 0 <= k < sent ==> !socket(k, ps[k]).failed)
            && (failed ==> socket(sent, ps[sent]).failed)
            && n == Taken(socket, ps, if failed then sent + 1 else sent)
  {
    n, failed := 0, false;
    ghost var ps := Slices(buffers, indexes, 0);
    var i, k := 0, 0;
    assert indexes[0..] == indexes && ps[0..] == ps;
    while k < |indexes|
      invariant 0 <= k <= |indexes| && !failed
      invariant Ascending(indexes[k..], i, |buffers|)
      invariant ps[k..] == Slices(buffers, indexes[k..], i)
      invariant forall m :: 0 <= m < k ==> !socket(m, ps[m]).failed
      invariant n == Taken(socket, ps, k)
    {
      var j := indexes[k];
      var pkt := buffers[i..j];
      assert indexes[k..][1..] == indexes[k + 1..] && ps[k..][1..] == ps[k + 1..];
      assert ps[k] == ps[k..][0] == pkt;
      i := j;
      var report := socket(k, pkt);
      if report.bytes > 0 {
        n := n + report.bytes;
      }
      if report.failed {
        return k, n, true;
      }
      k := k + 1;
    }
    sent := k;
  }

  // ----- merging then cutting -----

  lemma MergeOne(ps: seq<Packet>, p: Packet)
    ensures Flatten(ps + [p]) == Flatten(ps) + p
    ensures Ends(ps + [p]) == Ends(ps) + [|Flatten(ps) + p|]
    ensures ps == [] ==> Flatten(ps) == [] && Ends(ps) == []
  {
    assert (ps + [p])[..|ps|] == ps;
  }

  lemma {:induction false} SlicesSnoc(
    buffers: seq<seq<byte>>, indexes: seq<nat>, from: nat, more: seq<seq<byte>>, end: nat)
    requires Ascending(indexes, from, |buffers|) && from <= |buffers| && end == |buffers + more|
    requires indexes != [] ==> indexes[|indexes| - 1] == |buffers|
    requires indexes == [] ==> from == |buffers|
    ensures Ascending(indexes + [end], from, end)
    ensures Slices(buffers + more, indexes + [end], from) == Slices(buffers, indexes, from) + [more]
  {
    var b := buffers + more;
    if indexes == [] {
      assert [] + [end] == [end] && [end][1..] == [];
      assert b[from..end] == more;
    } else {
      var i := indexes[0];
      assert (indexes + [end])[1..] == indexes[1..] + [end];
      assert i <= |buffers|;
      SlicesSnoc(buffers, indexes[1..], i, more, end);
      assert b[from..i] == buffers[from..i];
    }
  }

  /** The round trip: cutting the merged buffers at the recorded indexes gives back the packets, one
      for one, boundaries intact - empty packets included. */
  lemma {:induction false} CutUndoesMerge(ps: seq<Packet>)
    ensures Ascending(Ends(ps), 0, |Flatten(ps)|)
    ensures Slices(Flatten(ps), Ends(ps), 0) == ps
    ensures ps != [] ==> Ends(ps)[|ps| - 1] == |Flatten(ps)|
    ensures ps == [] ==> Flatten(ps) == []
  {
    if ps != [] {
      var n := |ps| - 1;
      var init, p := ps[..n], ps[n];
      CutUndoesMerge(init);
      MergeOne(init, p);
      assert ps == init + [p];
      SlicesSnoc(Flatten(init), Ends(init), 0, p, |Flatten(init) + p|);
    }
  }

  // ----- whole runs of the write loop -----

  /** Writers append to the queue at any time; the loop takes one packet, merges more while the queue
      has any and the batch has room, and hands the batch to the transport. */
  datatype Loop = Loop(accepted: seq<Packet>, queue: seq<Packet>, batch: seq<Packet>, sent: seq<Packet>, broken: bool)

  const Idle := Loop([], [], [], [], false)

  /** Deliver(k): the transport sends k packets of the batch, all of them unless an error stops it. */
  datatype Event = Accept(packet: Packet) | Take | More | Deliver(k: nat)

  predicate Enabled(capacity: nat, s: Loop, e: Event) {
    match e
    case Accept(_) => true
    case Take => !s.broken && s.batch == [] && s.queue != []
    case More => !s.broken && s.batch != [] && s.queue != [] && (|s.batch| == 1 || |s.batch| < capacity)
    case Deliver(k) =>
      && !s.broken && s.batch != [] && k <= |s.batch|
      && (s.queue == [] || (|s.batch| >= 2 && |s.batch| >= capacity))
  }

  function Next(capacity: nat, s: Loop, e: Event): Loop
    requires Enabled(capacity, s, e)
  {
    match e
    case Accept(p) => s.(accepted := s.accepted + [p], queue := s.queue + [p])
    case Take => s.(queue := s.queue[1..], batch := [s.queue[0]])
    case More => s.(queue := s.queue[1..], batch := s.batch + [s.queue[0]])
    case Deliver(k) =>
      CutUndoesMerge(s.batch);
      var out := Slices(Flatten(s.batch), Ends(s.batch), 0);
      if k == |s.batch| then s.(sent := s.sent + out, batch := [])
      else s.(sent := s.sent + out[..k], broken := true)
  }

  predicate Possible(capacity: nat, s: Loop, events: seq<Event>)
    decreases |events|
  {
    events == [] || (Enabled(capacity, s, events[0]) && Possible(capacity, Next(capacity, s, events[0]), events[1..]))
  }

  function Last(capacity: nat, s: Loop, events: seq<Event>): Loop
    requires Possible(capacity, s, events)
    decreases |events|
  {
    if events == [] then s else Last(capacity, Next(capacity, s, events[0]), events[1..])
  }

  predicate FifoOk(capacity: nat, s: Loop) {
    && |s.batch| <= Max(2, capacity)
    && (!s.broken ==> s.accepted == s.sent + s.batch + s.queue)
    && s.sent <= s.accepted
  }

  lemma MoveOne(sent: seq<Packet>, batch: seq<Packet>, queue: seq<Packet>)
    requires queue != []
    ensures sent + batch + queue == sent + (batch + [queue[0]]) + queue[1..]
    ensures batch == [] ==> batch + [queue[0]] == [queue[0]]
  {
  }

  lemma SendSome(sent: seq<Packet>, batch: seq<Packet>, queue: seq<Packet>, k: nat)
    requires k <= |batch|
    ensures sent + batch[..k] <= sent + batch + queue
    ensures k == |batch| ==> sent + batch <= sent + batch + queue && sent + batch + [] + queue == sent + batch + queue
  {
  }

  lemma NextKeepsFifo(capacity: nat, s: Loop, e: Event)
    requires FifoOk(capacity, s) && Enabled(capacity, s, e)
    ensures FifoOk(capacity, Next(capacity, s, e))
  {
    hide Slices, Flatten, Ends;
    if e.Take? || e.More? {
      MoveOne(s.sent, s.batch, s.queue);
    } else if e.Deliver? {
      CutUndoesMerge(s.batch);
      SendSome(s.sent, s.batch, s.queue, e.k);
    }
  }

  lemma {:induction false} RunKeepsFifo(capacity: nat, s: Loop, events: seq<Event>)
    requires FifoOk(capacity, s) && Possible(capacity, s, events)
    ensures FifoOk(capacity, Last(capacity, s, events))
    decreases |events|
  {
    if events != [] {
      NextKeepsFifo(capacity, s, events[0]);
      RunKeepsFifo(capacity, Next(capacity, s, events[0]), events[1..]);
    }
  }

  /** The packets the transport reported as sent. */
  function Delivered(events: seq<Event>): nat {
    if events == [] then 0 else (if events[0].Deliver? then events[0].k else 0) + Delivered(events[1..])
  }

  lemma {:induction false} RunSends(capacity: nat, s: Loop, events: seq<Event>)
    requires Possible(capacity, s, events)
    ensures |Last(capacity, s, events).sent| == |s.sent| + Delivered(events)
    decreases |events|
  {
    if events != [] {
      RunSends(capacity, Next(capacity, s, events[0]), events[1..]);
      if events[0].Deliver? {
        CutUndoesMerge(s.batch);
      }
    }
  }

  /** Over every run what has been sent is a prefix of what was accepted, in order and packet by packet,
      and as long as the transport reported; nothing is lost while no send fails; and no batch outgrows its
      bound. */
  lemma SentIsPrefix(capacity: nat, events: seq<Event>)
    requires Possible(capacity, Idle, events)
    ensures var s := Last(capacity, Idle, events);
            && s.sent <= s.accepted && |s.sent| == Delivered(events) && |s.batch| <= Max(2, capacity)
            && (!s.broken ==> s.accepted == s.sent + s.batch + s.queue)
  {
    RunKeepsFifo(capacity, Idle, events);
    RunSends(capacity, Idle, events);
  }

  /** A batch goes out only when the queue is empty or the batch full. */
  lemma BatchesAreFull(capacity: nat, events: seq<Event>, k: nat)
    requires Possible(capacity, Idle, events) && Enabled(capacity, Last(capacity, Idle, events), Deliver(k))
    ensures var s := Last(capacity, Idle, events);
            s.batch != [] && (s.queue == [] || |s.batch| == Max(2, capacity))
  {
    RunKeepsFifo(capacity, Idle, events);
  }
}
