/** The packet queue of the playback engine (src/_gmovie.c:10-150): a FIFO of
    compressed packets that keeps a packet count, a byte total and a sticky
    abort flag beside the list itself. */
module PacketQueues {
  import opened Options
  import opened Seqs

  /** A compressed packet. `Data` is an ordinary packet: `data` identifies its
      payload (0 stands for a NULL payload, as in the end-of-file drain packet),
      `size` is its byte count and `streamIndex` the stream it belongs to.
      `Flush` is the process-wide flush marker that decoders recognise by the
      identity of its payload; it carries no bytes. */
  datatype Packet = Data(data: nat, size: int, streamIndex: int) | Flush
  {
    function Size(): int
    {
      if Data? then size else 0
    }
  }

  /** Byte total of a list of packets. */
  function TotalSize(ps: seq<Packet>): int
  {
    if ps == [] then 0 else TotalSize(ps[..|ps| - 1]) + ps[|ps| - 1].Size()
  }

  /** The byte total of a list is the size of its head plus that of its tail. */
  lemma {:induction false} TotalSizeHead(ps: seq<Packet>)
    requires ps != []
    ensures TotalSize(ps) == ps[0].Size() + TotalSize(ps[1..])
  {
    if |ps| > 1 {
      TotalSizeHead(ps[..|ps| - 1]);
      assert ps[..|ps| - 1][1..] == ps[1..][..|ps[1..]| - 1];
    }
  }

  lemma TotalSizeAppend(ps: seq<Packet>, p: Packet)
    ensures TotalSize(ps + [p]) == TotalSize(ps) + p.Size()
  {
    assert (ps + [p])[..|ps|] == ps;
  }

  /** The fields of a PacketQueue: its list, `nb_packets`, `size` and
      `abort_request`. */
  datatype QueueState = QueueState(packets: seq<Packet>, nbPackets: int, size: int, abortRequest: bool)
  {
    /** The counters describe the list exactly. */
    ghost predicate Consistent()
    {
      nbPackets == |packets| && size == TotalSize(packets)
    }
  }

  /** What `packet_queue_get` leaves behind: the new queue, its return code
      (-1 aborted, 0 no packet, 1 packet) and the packet it wrote out, if any. */
  datatype Got = Got(queue: QueueState, ret: int, pkt: Option<Packet>)

  /** `packet_queue_init` on a queue that already exists: it only clears the
      abort flag; the list and both counters are left as they are. */
  function InitQueue(q: QueueState): (r: QueueState)
    ensures !r.abortRequest && r.packets == q.packets
    ensures q.Consistent() ==> r.Consistent()
  {
    q.(abortRequest := false)
  }

  /** `packet_queue_flush`: every packet is dropped and both counters go to zero;
      the abort flag is kept. */
  function FlushQueue(q: QueueState): (r: QueueState)
    ensures r.Consistent() && r.packets == []
    ensures r.abortRequest == q.abortRequest
  {
    QueueState([], 0, 0, q.abortRequest)
  }

  /** `packet_queue_abort`: raise the sticky abort flag. */
  function AbortQueue(q: QueueState): (r: QueueState)
    ensures r.abortRequest && r.packets == q.packets
    ensures q.Consistent() ==> r.Consistent()
  {
    q.(abortRequest := true)
  }

  /** `packet_queue_put`. The list node comes from `av_malloc`; `allocOk` says
      whether that allocation succeeded. On failure the call returns -1 and the
      queue is untouched; otherwise the packet is appended, whatever the abort
      flag says, and the call returns 0. */
  function PutQueue(q: QueueState, p: Packet, allocOk: bool): (r: (QueueState, int))
    ensures r.1 == (if allocOk then 0 else -1)
    ensures r.0.packets == (if allocOk then q.packets + [p] else q.packets)
    ensures r.0.abortRequest == q.abortRequest
    ensures q.Consistent() ==> r.0.Consistent()
  {
    if !allocOk then (q, -1)
    else
      TotalSizeAppend(q.packets, p);
      (QueueState(q.packets + [p], q.nbPackets + 1, q.size + p.Size(), q.abortRequest), 0)
  }

  /** `packet_queue_get`. It never waits: `block` is accepted and ignored, so an
      empty queue answers 0 at once for either value of it. */
  function GetQueue(q: QueueState, block: bool): (r: Got)
    ensures r.ret == -1 <==> q.abortRequest
    ensures r.ret == 1 <==> !q.abortRequest && q.packets != []
    ensures !q.abortRequest && q.packets == [] ==> r.ret == 0
    ensures r.ret != 1 ==> r.queue == q && r.pkt == None
    ensures r.ret == 1 ==> r.pkt == Some(q.packets[0]) && r.queue.packets == q.packets[1..]
    ensures r.queue.abortRequest == q.abortRequest
    ensures q.Consistent() ==> r.queue.Consistent()
  {
    if q.abortRequest then Got(q, -1, None)
    else if q.packets != [] then
      var head := q.packets[0];
      TotalSizeHead(q.packets);
      Got(QueueState(q.packets[1..], q.nbPackets - 1, q.size - head.Size(), q.abortRequest), 1, Some(head))
    else Got(q, 0, None)
  }

  /** One call on a queue, as a caller issues it. */
  datatype Op = Put(p: Packet, allocOk: bool) | Get(block: bool)

  /** The packet a call appends, if it is a put whose allocation succeeds. */
  function Added(op: Op): seq<Packet>
  {
    if op.Put? && op.allocOk then [op.p] else []
  }

  /** The packets that the puts of `ops` managed to append, in call order. */
  function Appended(ops: seq<Op>): seq<Packet>
  {
    if ops == [] then [] else Added(ops[0]) + Appended(ops[1..])
  }

  /** One call: the queue after it and the packets it handed to the caller. */
  function Step(q: QueueState, op: Op): (QueueState, seq<Packet>)
  {
    match op
    case Put(p, ok) => (PutQueue(q, p, ok).0, [])
    case Get(b) =>
      var g := GetQueue(q, b);
      (g.queue, if g.ret == 1 then [g.pkt.value] else [])
  }

  /** Run a sequence of calls; the result is the final queue and the packets the
      gets returned, in order. */
  function Run(q: QueueState, ops: seq<Op>): (QueueState, seq<Packet>)
    decreases ops
  {
    if ops == [] then (q, [])
    else
      var s := Step(q, ops[0]);
      var r := Run(s.0, ops[1..]);
      (r.0, s.1 + r.1)
  }

  /** One call moves a packet from the front of the queue to the caller, or
      adds one at the back. */
  lemma StepIsFifo(q: QueueState, op: Op)
    ensures Step(q, op).1 + Step(q, op).0.packets == q.packets + Added(op)
  {
    if op.Get? && GetQueue(q, op.block).ret == 1 {
      assert q.packets == [q.packets[0]] + q.packets[1..];
    }
  }

  /** FIFO order over any interleaving of puts and gets: what the gets returned,
      followed by what is still queued, is exactly what was queued at the start
      followed by every packet that was put, in order. Nothing is lost, nothing
      is duplicated and nothing overtakes. */
  lemma {:induction false} RunIsFifo(q: QueueState, ops: seq<Op>)
    ensures Run(q, ops).1 + Run(q, ops).0.packets == q.packets + Appended(ops)
    decreases ops
  {
    if ops != [] {
      var s := Step(q, ops[0]);
      var r := Run(s.0, ops[1..]);
      assert Run(q, ops) == (r.0, s.1 + r.1);
      StepIsFifo(q, ops[0]);
      RunIsFifo(s.0, ops[1..]);
      AppendAssoc(s.1, r.1, r.0.packets);
      AppendAssoc(s.1, s.0.packets, Appended(ops[1..]));
      AppendAssoc(q.packets, Added(ops[0]), Appended(ops[1..]));
    }
  }

  /** Over any interleaving of puts and gets, `nb_packets` stays equal to the
      number of queued packets and `size` to the sum of their sizes, and the
      abort flag is never changed. */
  lemma {:induction false} RunKeepsCounters(q: QueueState, ops: seq<Op>)
    requires q.Consistent()
    ensures Run(q, ops).0.Consistent()
    ensures Run(q, ops).0.abortRequest == q.abortRequest
    decreases ops
  {
    if ops != [] {
      RunKeepsCounters(Step(q, ops[0]).0, ops[1..]);
    }
  }

  /** Once the abort flag is up, gets return nothing at all, whatever is queued:
      every packet that is put simply stays in the list. */
  lemma {:induction false} AbortedRunReturnsNothing(q: QueueState, ops: seq<Op>)
    requires q.abortRequest
    ensures Run(q, ops).1 == []
    ensures Run(q, ops).0.packets == q.packets + Appended(ops)
    ensures Run(q, ops).0.abortRequest
    decreases ops
  {
    if ops != [] {
      var s := Step(q, ops[0]);
      AbortedRunReturnsNothing(s.0, ops[1..]);
    }
    RunIsFifo(q, ops);
  }

  /** A PacketQueue. The C code keeps a singly linked list with head and tail
      pointers; here the list is the sequence `packets`, in queue order. */
  class PacketQueue {
    var packets: seq<Packet>
    var nbPackets: int
    var size: int
    var abortRequest: bool

    function State(): QueueState
      reads this
    {
      QueueState(packets, nbPackets, size, abortRequest)
    }

    ghost predicate Valid()
      reads this
    {
      State().Consistent()
    }

    /** A queue inside a freshly allocated, zero-filled movie object. */
    constructor ()
      ensures Valid()
      ensures State() == QueueState([], 0, 0, false)
    {
      packets, nbPackets, size, abortRequest := [], 0, 0, false;
    }

    /** `packet_queue_init` (src/_gmovie.c:10-20). */
    method Init()
      modifies this
      ensures State() == InitQueue(old(State()))
      ensures old(Valid()) ==> Valid()
    {
      abortRequest := false;
    }

    /** `packet_queue_flush` (src/_gmovie.c:22-42). */
    method Flush()
      modifies this
      ensures State() == FlushQueue(old(State()))
      ensures Valid()
    {
      packets := [];
      nbPackets := 0;
      size := 0;
    }

    /** `packet_queue_put` (src/_gmovie.c:65-95). */
    method Put(pkt: Packet, allocOk: bool) returns (r: int)
      requires Valid()
      modifies this
      ensures (State(), r) == PutQueue(old(State()), pkt, allocOk)
      ensures Valid()
    {
      if !allocOk {
        return -1;
      }
      TotalSizeAppend(packets, pkt);
      packets := packets + [pkt];
      nbPackets := nbPackets + 1;
      size := size + pkt.Size();
      r := 0;
    }

    /** `packet_queue_abort` (src/_gmovie.c:97-108). */
    method Abort()
      modifies this
      ensures State() == AbortQueue(old(State()))
      ensures old(Valid()) ==> Valid()
    {
      abortRequest := true;
    }

    /** `packet_queue_get` (src/_gmovie.c:111-150). */
    method Get(block: bool) returns (r: int, pkt: Option<Packet>)
      requires Valid()
      modifies this
      ensures Got(State(), r, pkt) == GetQueue(old(State()), block)
      ensures Valid()
    {
      if abortRequest {
        return -1, None;
      }
      if packets != [] {
        var head := packets[0];
        TotalSizeHead(packets);
        packets := packets[1..];
        nbPackets := nbPackets - 1;
        size := size - head.Size();
        return 1, Some(head);
      }
      r, pkt := 0, None;
    }
  }
}
