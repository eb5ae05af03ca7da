/**
  The state one PTY writer keeps behind its mutex, and its three critical sections.
  Each function says what a section does to the guarded state; the class does it in place.
 */
module PtyWriter {
  import opened Bytes

  const MAX_WRITE_QUEUE_BYTES: nat := 1024 * 1024

  datatype QueuedWrite = QueuedWrite(id: nat, bytes: seq<Byte>)

  /** What the `inner` mutex guards. */
  datatype Inner = Inner(queue: seq<QueuedWrite>, queuedBytes: nat, nextId: nat, closed: bool)

  datatype Admission = ShuttingDown | Enqueued(id: nat) | Full

  datatype Poll = Job(job: QueuedWrite) | Exit | Sleep

  /** The admission test: an empty queue admits any batch. */
  predicate Fits(s: Inner, len: nat) {
    s.queuedBytes == 0 || s.queuedBytes + len <= MAX_WRITE_QUEUE_BYTES
  }

  function SaturatingSub(a: nat, b: nat): nat {
    if a < b then 0 else a - b
  }

  function Admit(s: Inner, data: seq<Byte>): (Inner, Admission) {
    if s.closed then (s, ShuttingDown)
    else if Fits(s, |data|) then
      (s.(queue := s.queue + [QueuedWrite(s.nextId, data)],
          queuedBytes := s.queuedBytes + |data|,
          nextId := s.nextId + 1),
       Enqueued(s.nextId))
    else (s, Full)
  }

  /** The position of the first queued job numbered `id`, or the queue's length. */
  function Position(queue: seq<QueuedWrite>, id: nat): (p: nat)
    ensures p <= |queue|
    ensures p < |queue| ==> queue[p].id == id
    ensures forall i :: 0 <= i < p ==> queue[i].id != id
  {
    if queue == [] || queue[0].id == id then 0 else 1 + Position(queue[1..], id)
  }

  function DropAt(queue: seq<QueuedWrite>, p: nat): seq<QueuedWrite>
    requires p < |queue|
  {
    queue[..p] + queue[p + 1..]
  }

  function Drop(s: Inner, id: nat, len: nat): Inner {
    var p := Position(s.queue, id);
    if p == |s.queue| then s
    else s.(queue := DropAt(s.queue, p), queuedBytes := SaturatingSub(s.queuedBytes, len))
  }

  function Take(s: Inner): (Inner, Poll) {
    if s.queue != [] then
      (s.(queue := s.queue[1..], queuedBytes := SaturatingSub(s.queuedBytes, |s.queue[0].bytes|)),
       Job(s.queue[0]))
    else if s.closed then (s, Exit)
    else (s, Sleep)
  }

  class WriterInner {
    var queue: seq<QueuedWrite>
    var queuedBytes: nat
    var nextId: nat
    var closed: bool

    ghost function View(): Inner
      reads this
    {
      Inner(queue, queuedBytes, nextId, closed)
    }

    constructor ()
      ensures View() == Inner([], 0, 0, false)
    {
      queue, queuedBytes, nextId, closed := [], 0, 0, false;
    }

    /** One pass of the enqueue loop of `write`, under the lock. */
    method TryEnqueue(data: seq<Byte>) returns (admission: Admission)
      modifies this
      ensures (View(), admission) == Admit(old(View()), data)
    {
      if closed {
        return ShuttingDown;
      }
      if queuedBytes == 0 || queuedBytes + |data| <= MAX_WRITE_QUEUE_BYTES {
        var id := nextId;
        nextId := nextId + 1;
        queuedBytes := queuedBytes + |data|;
        queue := queue + [QueuedWrite(id, data)];
        return Enqueued(id);
      }
      return Full;
    }

    /** Pull a job that has not started back out of the queue. */
    method DropQueuedJob(id: nat, len: nat) returns (found: bool)
      modifies this
      ensures View() == Drop(old(View()), id, len)
      ensures found <==> exists i :: 0 <= i < |old(queue)| && old(queue)[i].id == id
    {
      var pos := 0;
      while pos < |queue| && queue[pos].id != id
        invariant pos <= |queue|
        invariant forall i :: 0 <= i < pos ==> queue[i].id != id
      {
        pos := pos + 1;
      }
      found := pos < |queue|;
      if found {
        queue := queue[..pos] + queue[pos + 1..];
        queuedBytes := SaturatingSub(queuedBytes, len);
      }
    }

    /** The writer thread's pass over the queue. */
    method PopFront() returns (poll: Poll)
      modifies this
      ensures (View(), poll) == Take(old(View()))
    {
      if queue != [] {
        var job := queue[0];
        queue := queue[1..];
        queuedBytes := SaturatingSub(queuedBytes, |job.bytes|);
        return Job(job);
      }
      if closed {
        return Exit;
      }
      return Sleep;
    }

    method Close()
      modifies this
      ensures View() == old(View()).(closed := true)
    {
      closed := true;
    }
  }
}
