/** One attachment's bounded delivery queue (internal/session/output_subscriber.go). */
module Subscriber {
  import opened Sequences

  type Chunk = seq<byte>

  const MAX_TRANSCRIPT_BYTES: nat := 2 * 1024 * 1024

  /** The subscriber's mutex-guarded fields and the token in its one-slot wake channel.
      The done channel is closed exactly when `closed` is set. */
  datatype Queue = Queue(chunks: seq<Chunk>, queuedBytes: int, closed: bool, wake: bool)

  const EMPTY_QUEUE := Queue([], 0, false, false)

  predicate Accepts(q: Queue, chunk: Chunk) {
    !q.closed && q.queuedBytes + |chunk| <= MAX_TRANSCRIPT_BYTES
  }

  function Enqueued(q: Queue, chunk: Chunk): Queue {
    if Accepts(q, chunk)
    then q.(chunks := q.chunks + [chunk], queuedBytes := q.queuedBytes + |chunk|, wake := true)
    else q
  }

  function Dequeued(q: Queue): Queue {
    if q.chunks == [] then q else q.(chunks := q.chunks[1..])
  }

  class OutputSubscriber {
    ghost const key: nat  // the id it is registered under
    var queue: seq<Chunk>
    var queuedBytes: int
    var closed: bool
    var wake: bool

    function State(): Queue
      reads this
    {
      Queue(queue, queuedBytes, closed, wake)
    }

    constructor (ghost key: nat)
      ensures State() == Queue([], 0, false, false) && this.key == key
    {
      this.key := key;
      queue, queuedBytes, closed, wake := [], 0, false, false;
    }

    method Enqueue(chunk: Chunk) returns (ok: bool)
      modifies this
      ensures ok == old(Accepts(State(), chunk))
      ensures State() == Enqueued(old(State()), chunk)
    {
      if closed || queuedBytes + |chunk| > MAX_TRANSCRIPT_BYTES {
        return false;
      }
      queue := queue + [chunk];
      queuedBytes := queuedBytes + |chunk|;
      wake := true;  // a send that finds the slot full changes nothing
      ok := true;
    }

    method Close()
      modifies this
      ensures State() == old(State()).(closed := true)
    {
      if closed {
        return;
      }
      closed := true;
    }

    method Dequeue() returns (chunk: Option<Chunk>)
      modifies this
      ensures State() == Dequeued(old(State()))
      ensures chunk == if old(queue) == [] then None else Some(old(queue)[0])
    {
      if |queue| == 0 {
        return None;
      }
      chunk := Some(queue[0]);
      queue := queue[1..];
    }

    method Delivered(size: nat)
      modifies this
      ensures State() == old(State()).(queuedBytes := old(queuedBytes) - size)
    {
      queuedBytes := queuedBytes - size;
    }
  }
}
