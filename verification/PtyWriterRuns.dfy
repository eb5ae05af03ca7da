/**
  Every interleaving of any number of `write` calls, their timeouts, spurious wakeups, the
  writer thread and the last handle's drop, one critical section or device call a step.
 */
module PtyWriterRuns {
  import opened Bytes
  import opened Options
  import opened PtyWriter

  datatype Outcome = Written | DeviceError | TimedOut | Refused

  datatype WriterPc =
    | Polling
    | AsleepForJob                            // waiting on `job_ready`
    | Writing(job: QueuedWrite)               // inside `write_all`, off the lock
    | Delivering(job: QueuedWrite, ok: bool)
    | AfterFailure
    | Exited

  datatype Attempt = Attempt(id: nat, bytes: seq<Byte>, ok: bool)

  /** History: what has become of a batch so far. */
  datatype Status = Queued | Started | Attempted(ok: bool) | PulledBack

  /**
    The queue, the writer thread and, as history, the batches handed to the device in order,
    the batch behind every job number and what has become of it.
   */
  datatype Pipe = Pipe(inner: Inner, writer: WriterPc, device: seq<Attempt>, log: seq<seq<Byte>>, status: seq<Status>)

  /** Where one call to `write` stands. */
  datatype CallerPc =
    | Admitting(data: seq<Byte>, woken: bool) // about to take the inner lock, first or after a wait
    | AsleepForSpace(data: seq<Byte>)         // waiting on `space_free`
    | Waiting(id: nat, len: nat)              // about to look into its completion slot
    | AsleepForDone(id: nat, len: nat)        // waiting on `done`
    | Dropping(id: nat, len: nat)             // timed out, slot released, job not yet pulled back
    | Returned(job: Option<nat>, outcome: Outcome)

  /**
    `slots` holds the results delivered and not yet taken. History: the batch each call was
    given and the call behind each job number.
   */
  datatype System = System(
    pipe: Pipe, callers: map<nat, CallerPc>, slots: map<nat, bool>, asked: map<nat, seq<Byte>>, owner: seq<nat>)

  const INITIAL := System(Pipe(Inner([], 0, 0, false), Polling, [], [], []), map[], map[], map[], [])

  // --- the pipe ------------------------------------------------------------------------

  function NotifyJob(writer: WriterPc): WriterPc {
    if writer == AsleepForJob then Polling else writer
  }

  function PipeEnqueue(p: Pipe, data: seq<Byte>): Pipe {
    Pipe(Admit(p.inner, data).0, NotifyJob(p.writer), p.device, p.log + [data], p.status + [Queued])
  }

  predicate IsQueued(p: Pipe, id: nat) {
    Position(p.inner.queue, id) < |p.inner.queue|
  }

  function PipePullBack(p: Pipe, id: nat, len: nat): Pipe {
    p.(inner := Drop(p.inner, id, len),
       status := if IsQueued(p, id) && id < |p.status| then p.status[id := PulledBack] else p.status)
  }

  function PipePoll(p: Pipe): Pipe {
    var (inner, poll) := Take(p.inner);
    match poll
    case Job(job) =>
      p.(inner := inner,
         writer := Writing(job),
         status := if job.id < |p.status| then p.status[job.id := Started] else p.status)
    case Exit => p.(writer := Exited)
    case Sleep => p.(writer := AsleepForJob)
  }

  function PipeWriteAll(p: Pipe, ok: bool): Pipe
    requires p.writer.Writing?
  {
    var job := p.writer.job;
    p.(writer := Delivering(job, ok),
       device := p.device + [Attempt(job.id, job.bytes, ok)],
       status := if job.id < |p.status| then p.status[job.id := Attempted(ok)] else p.status)
  }

  function PipeClose(p: Pipe): Pipe {
    p.(inner := p.inner.(closed := true), writer := NotifyJob(p.writer))
  }

  function TotalBytes(queue: seq<QueuedWrite>): nat {
    if queue == [] then 0 else |queue[0].bytes| + TotalBytes(queue[1..])
  }

  ghost predicate Ordered(queue: seq<QueuedWrite>) {
    forall i, j :: 0 <= i < j < |queue| ==> queue[i].id < queue[j].id
  }

  ghost predicate InOrder(device: seq<Attempt>) {
    forall k, l :: 0 <= k < l < |device| ==> device[k].id < device[l].id
  }

  /** The queue holds exactly the queued batches, whole and in the order they were enqueued. */
  ghost predicate QueueInv(p: Pipe) {
    && |p.log| == |p.status| == p.inner.nextId
    && (forall id :: 0 <= id < |p.log| ==> p.log[id] != [])
    && (forall i :: 0 <= i < |p.inner.queue| ==> QueuedJob(p, p.inner.queue[i]))
    && Ordered(p.inner.queue)
    && (forall id :: 0 <= id < |p.status| && p.status[id] == Queued ==> IsQueued(p, id))
  }

  ghost predicate QueuedJob(p: Pipe, job: QueuedWrite)
    requires |p.log| == |p.status|
  {
    job.id < |p.log| && job.bytes == p.log[job.id] && p.status[job.id] == Queued
  }

  /** `queued_bytes` is exact, and above the cap only while a single oversized job is queued. */
  ghost predicate BytesInv(p: Pipe) {
    && p.inner.queuedBytes == TotalBytes(p.inner.queue)
    && (p.inner.queuedBytes <= MAX_WRITE_QUEUE_BYTES || |p.inner.queue| == 1)
  }

  ghost predicate AttemptOk(p: Pipe, a: Attempt)
    requires |p.log| == |p.status|
  {
    a.id < |p.log| && a.bytes == p.log[a.id] && p.status[a.id] == Attempted(a.ok)
  }

  /** The device saw exactly the attempted batches, whole, in strictly increasing order. */
  ghost predicate DeviceInv(p: Pipe)
    requires |p.log| == |p.status|
  {
    && (forall k :: 0 <= k < |p.device| ==> AttemptOk(p, p.device[k]))
    && InOrder(p.device)
    && (forall id :: 0 <= id < |p.status| && p.status[id].Attempted? ==>
          Attempt(id, p.log[id], p.status[id].ok) in p.device)
    && (forall k, i :: 0 <= k < |p.device| && 0 <= i < |p.inner.queue| ==>
          p.device[k].id < p.inner.queue[i].id)
  }

  /** The batch in flight lies between what the device saw and what is queued. */
  ghost predicate WriterInv(p: Pipe)
    requires |p.log| == |p.status|
  {
    && (p.writer.Writing? ==>
          && p.writer.job.id < |p.log|
          && p.writer.job.bytes == p.log[p.writer.job.id]
          && p.status[p.writer.job.id] == Started
          && (forall k :: 0 <= k < |p.device| ==> p.device[k].id < p.writer.job.id)
          && (forall i :: 0 <= i < |p.inner.queue| ==> p.writer.job.id < p.inner.queue[i].id))
    && (forall id :: 0 <= id < |p.status| && p.status[id] == Started ==>
          p.writer.Writing? && p.writer.job.id == id)
    && (p.writer.Delivering? ==>
          p.writer.job.id < |p.status| && p.status[p.writer.job.id] == Attempted(p.writer.ok))
    && (p.writer.AsleepForJob? ==> p.inner.queue == [] && !p.inner.closed)
    && (p.writer.Exited? ==> p.inner.closed)
    && (p.inner.closed ==> p.inner.queue == [])
  }

  ghost predicate PipeInv(p: Pipe) {
    QueueInv(p) && BytesInv(p) && DeviceInv(p) && WriterInv(p)
  }

  lemma {:induction false} TotalBytesAppend(queue: seq<QueuedWrite>, job: QueuedWrite)
    ensures TotalBytes(queue + [job]) == TotalBytes(queue) + |job.bytes|
  {
    if queue == [] {
    } else {
      assert (queue + [job])[1..] == queue[1..] + [job];
      TotalBytesAppend(queue[1..], job);
    }
  }

  lemma {:induction false} TotalBytesWithout(queue: seq<QueuedWrite>, p: nat)
    requires p < |queue|
    ensures TotalBytes(DropAt(queue, p)) + |queue[p].bytes| == TotalBytes(queue)
  {
    if p == 0 {
      assert DropAt(queue, 0) == queue[1..];
    } else {
      assert DropAt(queue, p)[1..] == DropAt(queue[1..], p - 1);
      TotalBytesWithout(queue[1..], p - 1);
    }
  }

  /** `Position` finds a job wherever it is. */
  lemma FoundAt(queue: seq<QueuedWrite>, i: nat)
    requires i < |queue|
    ensures Position(queue, queue[i].id) < |queue|
  {
  }

  lemma PipeEnqueueInv(p: Pipe, data: seq<Byte>)
    requires PipeInv(p) && data != [] && !p.inner.closed && Fits(p.inner, |data|)
    ensures PipeInv(PipeEnqueue(p, data))
  {
    EnqueueKeepsQueue(p, data);
    EnqueueKeepsBytes(p, data);
    EnqueueKeepsDevice(p, data);
  }

  lemma EnqueueKeepsBytes(p: Pipe, data: seq<Byte>)
    requires QueueInv(p) && BytesInv(p) && !p.inner.closed && Fits(p.inner, |data|)
    ensures BytesInv(PipeEnqueue(p, data))
  {
    var queue := p.inner.queue;
    TotalBytesAppend(queue, QueuedWrite(p.inner.nextId, data));
    assert queue != [] ==> QueuedJob(p, queue[0]) && TotalBytes(queue) > 0;
  }

  lemma EnqueueKeepsQueue(p: Pipe, data: seq<Byte>)
    requires QueueInv(p) && data != [] && !p.inner.closed && Fits(p.inner, |data|)
    ensures QueueInv(PipeEnqueue(p, data))
  {
    hide Position;
    var q := PipeEnqueue(p, data);
    var queue := p.inner.queue;
    EnqueueKeepsOrder(p, data);
    hide Ordered;
    forall i | 0 <= i < |q.inner.queue|
      ensures QueuedJob(q, q.inner.queue[i])
    {
      assert i < |queue| ==> QueuedJob(p, queue[i]);
    }
    forall id | 0 <= id < |q.status| && q.status[id] == Queued
      ensures IsQueued(q, id)
    {
      FoundAt(q.inner.queue, if id == p.inner.nextId then |queue| else Position(queue, id));
    }
  }

  lemma EnqueueKeepsOrder(p: Pipe, data: seq<Byte>)
    requires QueueInv(p) && !p.inner.closed && Fits(p.inner, |data|)
    ensures Ordered(PipeEnqueue(p, data).inner.queue)
  {
    forall i | 0 <= i < |p.inner.queue|
      ensures p.inner.queue[i].id < p.inner.nextId
    {
      assert QueuedJob(p, p.inner.queue[i]);
    }
  }

  lemma EnqueueKeepsDevice(p: Pipe, data: seq<Byte>)
    requires QueueInv(p) && DeviceInv(p) && WriterInv(p) && !p.inner.closed && Fits(p.inner, |data|)
    ensures DeviceInv(PipeEnqueue(p, data)) && WriterInv(PipeEnqueue(p, data))
  {
    assert forall k :: 0 <= k < |p.device| ==> AttemptOk(p, p.device[k]);
  }

  function Skip(at: nat, i: nat): nat {
    if i < at then i else i + 1
  }

  /** `q` is `p` with the job at position `at` taken out of the queue and its status replaced. */
  ghost predicate TakenOut(p: Pipe, q: Pipe, at: nat) {
    && |p.log| == |p.status| && at < |p.inner.queue| && p.inner.queue[at].id < |p.status|
    && q.log == p.log && q.device == p.device && q.inner.nextId == p.inner.nextId
    && |q.status| == |p.status| && q.status[p.inner.queue[at].id] != Queued
    && (forall id :: 0 <= id < |p.status| && id != p.inner.queue[at].id ==> q.status[id] == p.status[id])
    && |q.inner.queue| == |p.inner.queue| - 1
    && (forall i :: 0 <= i < |q.inner.queue| ==> q.inner.queue[i] == p.inner.queue[Skip(at, i)])
  }

  lemma TakenOutKeepsOrder(p: Pipe, q: Pipe, at: nat)
    requires Ordered(p.inner.queue) && TakenOut(p, q, at)
    ensures Ordered(q.inner.queue)
  {
  }

  lemma TakenOutIsAnother(p: Pipe, q: Pipe, at: nat, i: nat)
    requires Ordered(p.inner.queue) && TakenOut(p, q, at) && i < |q.inner.queue|
    ensures q.inner.queue[i].id != p.inner.queue[at].id
  {
    assert q.inner.queue[i] == p.inner.queue[Skip(at, i)];
  }

  lemma TakenOutKeepsQueue(p: Pipe, q: Pipe, at: nat)
    requires QueueInv(p) && TakenOut(p, q, at)
    ensures QueueInv(q)
  {
    hide Position;
    TakenOutKeepsOrder(p, q, at);
    forall i | 0 <= i < |q.inner.queue|
      ensures QueuedJob(q, q.inner.queue[i])
    {
      TakenOutIsAnother(p, q, at, i);
      assert QueuedJob(p, p.inner.queue[Skip(at, i)]);
    }
    forall x | 0 <= x < |q.status| && q.status[x] == Queued
      ensures IsQueued(q, x)
    {
      assert IsQueued(p, x);
      var i := Position(p.inner.queue, x);
      FoundAt(q.inner.queue, if i < at then i else i - 1);
    }
  }

  lemma TakenOutKeepsDevice(p: Pipe, q: Pipe, at: nat)
    requires QueueInv(p) && DeviceInv(p) && TakenOut(p, q, at)
    requires !q.status[p.inner.queue[at].id].Attempted?
    ensures DeviceInv(q)
  {
    assert QueuedJob(p, p.inner.queue[at]);
    forall k | 0 <= k < |p.device|
      ensures AttemptOk(q, p.device[k])
    {
      assert AttemptOk(p, p.device[k]);
    }
  }

  lemma TakenOutKeepsBytes(p: Pipe, q: Pipe, at: nat)
    requires QueueInv(p) && BytesInv(p) && at < |p.inner.queue|
    requires q.inner.queue == DropAt(p.inner.queue, at)
    requires q.inner.queuedBytes == SaturatingSub(p.inner.queuedBytes, |p.inner.queue[at].bytes|)
    ensures BytesInv(q) && q.inner.queuedBytes <= p.inner.queuedBytes
  {
    TotalBytesWithout(p.inner.queue, at);
    if |p.inner.queue| == 1 {
      assert q.inner.queue == [];
    }
  }

  lemma TakenOutKeepsWriter(p: Pipe, q: Pipe, at: nat)
    requires QueueInv(p) && WriterInv(p) && TakenOut(p, q, at)
    requires q.writer == p.writer && q.inner.closed == p.inner.closed
    requires q.status[p.inner.queue[at].id] == PulledBack
    ensures WriterInv(q)
  {
    assert QueuedJob(p, p.inner.queue[at]);
  }

  lemma PullBackTakesOut(p: Pipe, id: nat)
    requires QueueInv(p) && id < |p.log| && IsQueued(p, id)
    ensures TakenOut(p, PipePullBack(p, id, |p.log[id]|), Position(p.inner.queue, id))
    ensures p.inner.queue[Position(p.inner.queue, id)].bytes == p.log[id]
  {
    hide Position;
    assert QueuedJob(p, p.inner.queue[Position(p.inner.queue, id)]);
  }

  lemma PipePullBackInv(p: Pipe, id: nat)
    requires PipeInv(p) && id < |p.log|
    ensures PipeInv(PipePullBack(p, id, |p.log[id]|))
    ensures PipePullBack(p, id, |p.log[id]|).inner.queuedBytes <= p.inner.queuedBytes
  {
    if IsQueued(p, id) {
      var q, at := PipePullBack(p, id, |p.log[id]|), Position(p.inner.queue, id);
      PullBackTakesOut(p, id);
      TakenOutKeepsQueue(p, q, at);
      TakenOutKeepsDevice(p, q, at);
      TakenOutKeepsBytes(p, q, at);
      TakenOutKeepsWriter(p, q, at);
    }
  }

  lemma PollTakesOut(p: Pipe)
    requires QueueInv(p) && p.inner.queue != []
    ensures TakenOut(p, PipePoll(p), 0) && QueuedJob(p, p.inner.queue[0])
    ensures PipePoll(p).inner.queue == DropAt(p.inner.queue, 0)
  {
    assert QueuedJob(p, p.inner.queue[0]);
  }

  lemma PollKeepsWriter(p: Pipe)
    requires QueueInv(p) && DeviceInv(p) && WriterInv(p) && p.writer.Polling? && p.inner.queue != []
    ensures WriterInv(PipePoll(p))
  {
    assert QueuedJob(p, p.inner.queue[0]);
  }

  lemma PipePollInv(p: Pipe)
    requires PipeInv(p) && p.writer.Polling?
    ensures PipeInv(PipePoll(p))
    ensures PipePoll(p).inner.queuedBytes <= p.inner.queuedBytes
  {
    var q := PipePoll(p);
    if p.inner.queue != [] {
      hide QueueInv, BytesInv, DeviceInv, WriterInv;
      PollTakesOut(p);
      TakenOutKeepsQueue(p, q, 0);
      TakenOutKeepsDevice(p, q, 0);
      TakenOutKeepsBytes(p, q, 0);
      PollKeepsWriter(p);
    }
  }

  lemma WriteAllKeepsQueue(p: Pipe, ok: bool)
    requires QueueInv(p) && WriterInv(p) && p.writer.Writing?
    ensures QueueInv(PipeWriteAll(p, ok))
  {
    hide Position;
    hide Ordered;
    var q := PipeWriteAll(p, ok);
    forall i | 0 <= i < |p.inner.queue|
      ensures QueuedJob(q, p.inner.queue[i])
    {
      assert QueuedJob(p, p.inner.queue[i]);
    }
    forall x | 0 <= x < |q.status| && q.status[x] == Queued
      ensures IsQueued(q, x)
    {
      assert IsQueued(p, x);
    }
  }

  lemma WriteAllKeepsDevice(p: Pipe, ok: bool)
    requires |p.log| == |p.status| && DeviceInv(p) && WriterInv(p) && p.writer.Writing?
    ensures DeviceInv(PipeWriteAll(p, ok)) && WriterInv(PipeWriteAll(p, ok))
  {
    var q := PipeWriteAll(p, ok);
    forall k | 0 <= k < |q.device|
      ensures AttemptOk(q, q.device[k])
    {
      assert k < |p.device| ==> AttemptOk(p, p.device[k]);
    }
    forall id | 0 <= id < |q.status| && q.status[id].Attempted?
      ensures Attempt(id, q.log[id], q.status[id].ok) in q.device
    {
      if id == p.writer.job.id {
        assert q.device[|p.device|] == Attempt(id, q.log[id], ok);
      }
    }
  }

  lemma PipeWriteAllInv(p: Pipe, ok: bool)
    requires PipeInv(p) && p.writer.Writing?
    ensures PipeInv(PipeWriteAll(p, ok))
  {
    WriteAllKeepsQueue(p, ok);
    WriteAllKeepsDevice(p, ok);
  }

  lemma PipeQuietInv(p: Pipe, writer: WriterPc)
    requires PipeInv(p) && !p.writer.Writing? && !writer.Writing? && !writer.Delivering? && !writer.AsleepForJob?
    requires writer.Exited? ==> p.inner.closed
    ensures PipeInv(p.(writer := writer))
  {
    hide Position;
    var q := p.(writer := writer);
    assert forall id :: IsQueued(q, id) <==> IsQueued(p, id);
    assert forall i :: 0 <= i < |p.inner.queue| ==> QueuedJob(p, p.inner.queue[i]) ==> QueuedJob(q, q.inner.queue[i]);
    assert forall k :: 0 <= k < |p.device| ==> AttemptOk(p, p.device[k]) ==> AttemptOk(q, q.device[k]);
  }

  // --- callers -------------------------------------------------------------------------

  function NotifiedOfSpace(pc: CallerPc): CallerPc {
    match pc
    case AsleepForSpace(data) => Admitting(data, true)
    case _ => pc
  }

  function NotifySpace(callers: map<nat, CallerPc>): map<nat, CallerPc> {
    map c | c in callers :: NotifiedOfSpace(callers[c])
  }

  function NotifiedOfResult(pc: CallerPc, id: nat): CallerPc {
    if pc.AsleepForDone? && pc.id == id then Waiting(id, pc.len) else pc
  }

  function NotifyDone(callers: map<nat, CallerPc>, id: nat): map<nat, CallerPc> {
    map c | c in callers :: NotifiedOfResult(callers[c], id)
  }

  datatype Step =
    | Call(caller: nat, data: seq<Byte>)
    | TryAdmit(caller: nat, expired: bool)
    | SpaceWake(caller: nat)
    | SpaceTimeout(caller: nat)
    | LookForResult(caller: nat, expired: bool)
    | DoneWake(caller: nat)
    | DoneTimeout(caller: nat)
    | PullBack(caller: nat)
    | PollQueue
    | JobWake
    | WriteAll(ok: bool)
    | Deliver
    | CheckClosed
    | DropHandle

  /**
    When a step can happen; the handle is dropped only when no call borrows it. A wait for space
    that timed out ends the call even when a notification overtook it.
   */
  ghost predicate Enabled(s: System, step: Step) {
    match step
    case Call(c, _) => c !in s.callers && !s.pipe.inner.closed
    case TryAdmit(c, _) => c in s.callers && s.callers[c].Admitting?
    case SpaceWake(c) => c in s.callers && s.callers[c].AsleepForSpace?
    case SpaceTimeout(c) =>
      c in s.callers && (s.callers[c].AsleepForSpace? || (s.callers[c].Admitting? && s.callers[c].woken))
    case LookForResult(c, _) => c in s.callers && s.callers[c].Waiting?
    case DoneWake(c) => c in s.callers && s.callers[c].AsleepForDone?
    case DoneTimeout(c) => c in s.callers && s.callers[c].AsleepForDone?
    case PullBack(c) => c in s.callers && s.callers[c].Dropping?
    case PollQueue => s.pipe.writer.Polling?
    case JobWake => s.pipe.writer.AsleepForJob?
    case WriteAll(_) => s.pipe.writer.Writing?
    case Deliver => s.pipe.writer.Delivering?
    case CheckClosed => s.pipe.writer.AfterFailure?
    case DropHandle => !s.pipe.inner.closed && forall c :: c in s.callers ==> s.callers[c].Returned?
  }

  function Move(s: System, c: nat, pc: CallerPc): System {
    s.(callers := s.callers[c := pc])
  }

  function AfterTryAdmit(s: System, c: nat, data: seq<Byte>, expired: bool): System {
    match Admit(s.pipe.inner, data).1
    case ShuttingDown => Move(s, c, Returned(None, Refused))
    case Enqueued(id) =>
      System(PipeEnqueue(s.pipe, data), s.callers[c := Waiting(id, |data|)], s.slots, s.asked, s.owner + [c])
    case Full => Move(s, c, if expired then Returned(None, TimedOut) else AsleepForSpace(data))
  }

  function AfterLook(s: System, c: nat, id: nat, len: nat, expired: bool): System {
    if id in s.slots then
      Move(s, c, Returned(Some(id), if s.slots[id] then Written else DeviceError)).(slots := s.slots - {id})
    else Move(s, c, if expired then Dropping(id, len) else AsleepForDone(id, len))
  }

  function AfterPullBack(s: System, c: nat, id: nat, len: nat): System {
    var callers := s.callers[c := Returned(Some(id), TimedOut)];
    s.(pipe := PipePullBack(s.pipe, id, len),
       callers := if IsQueued(s.pipe, id) then NotifySpace(callers) else callers)
  }

  function AfterPoll(s: System): System {
    s.(pipe := PipePoll(s.pipe),
       callers := if s.pipe.inner.queue != [] then NotifySpace(s.callers) else s.callers)
  }

  function AfterDeliver(s: System): System
    requires s.pipe.writer.Delivering?
  {
    s.(pipe := s.pipe.(writer := if s.pipe.writer.ok then Polling else AfterFailure),
       slots := s.slots[s.pipe.writer.job.id := s.pipe.writer.ok],
       callers := NotifyDone(s.callers, s.pipe.writer.job.id))
  }

  ghost function Next(s: System, step: Step): System
    requires Enabled(s, step)
  {
    match step
    case Call(c, data) =>
      Move(s, c, if data == [] then Returned(None, Written) else Admitting(data, false)).(asked := s.asked[c := data])
    case TryAdmit(c, expired) => AfterTryAdmit(s, c, s.callers[c].data, expired)
    case SpaceWake(c) => Move(s, c, Admitting(s.callers[c].data, true))
    case SpaceTimeout(c) => Move(s, c, Returned(None, TimedOut))
    case LookForResult(c, expired) => AfterLook(s, c, s.callers[c].id, s.callers[c].len, expired)
    case DoneWake(c) => Move(s, c, Waiting(s.callers[c].id, s.callers[c].len))
    case DoneTimeout(c) => Move(s, c, Dropping(s.callers[c].id, s.callers[c].len))
    case PullBack(c) => AfterPullBack(s, c, s.callers[c].id, s.callers[c].len)
    case PollQueue => AfterPoll(s)
    case JobWake => s.(pipe := s.pipe.(writer := Polling))
    case WriteAll(ok) => s.(pipe := PipeWriteAll(s.pipe, ok))
    case Deliver => AfterDeliver(s)
    case CheckClosed =>
      s.(pipe := s.pipe.(writer := if s.pipe.inner.closed then Exited else Polling))
    case DropHandle => s.(pipe := PipeClose(s.pipe), callers := NotifySpace(s.callers))
  }

  function JobOf(pc: CallerPc): Option<nat> {
    match pc
    case Waiting(id, _) => Some(id)
    case AsleepForDone(id, _) => Some(id)
    case Dropping(id, _) => Some(id)
    case Returned(job, _) => job
    case _ => None
  }

  predicate SameLengths(s: System) {
    |s.pipe.log| == |s.pipe.status| == |s.owner| == s.pipe.inner.nextId
  }

  predicate Owns(s: System, c: nat, id: nat)
    requires SameLengths(s)
  {
    id < |s.owner| && s.owner[id] == c
  }

  /** The result of this batch has not been delivered yet, but the writer will deliver it. */
  predicate Upcoming(p: Pipe, id: nat) {
    && id < |p.status|
    && (p.status[id] == Queued || p.status[id] == Started || (p.writer.Delivering? && p.writer.job.id == id))
  }

  /** What a call may rely on at each point: nobody sleeps through what it waits for. */
  ghost predicate CallerOk(s: System, c: nat, pc: CallerPc)
    requires SameLengths(s) && c in s.asked
  {
    match pc
    case Admitting(data, _) => data != [] && data == s.asked[c]
    case AsleepForSpace(data) => data != [] && data == s.asked[c] && !s.pipe.inner.closed && !Fits(s.pipe.inner, |data|)
    case Waiting(id, len) =>
      && Owns(s, c, id) && len == |s.pipe.log[id]| && s.pipe.status[id] != PulledBack
      && (id in s.slots || Upcoming(s.pipe, id))
    case AsleepForDone(id, len) =>
      && Owns(s, c, id) && len == |s.pipe.log[id]| && s.pipe.status[id] != PulledBack
      && id !in s.slots && Upcoming(s.pipe, id)
    case Dropping(id, len) =>
      Owns(s, c, id) && len == |s.pipe.log[id]| && s.pipe.status[id] != PulledBack
    case Returned(Some(id), outcome) =>
      && Owns(s, c, id)
      && (outcome == Written ==> s.pipe.status[id] == Attempted(true))
      && (outcome == DeviceError ==> s.pipe.status[id] == Attempted(false))
      && (outcome == TimedOut ==> s.pipe.status[id] != Queued)
      && outcome != Refused
    case Returned(None, outcome) => outcome != DeviceError && (outcome == Written ==> s.asked[c] == [])
  }

  ghost predicate CallersInv(s: System)
    requires SameLengths(s)
  {
    && s.asked.Keys == s.callers.Keys
    && forall c :: c in s.callers ==> CallerOk(s, c, s.callers[c])
  }

  /** Every batch belongs to one call, which is still inside `write` while the batch is queued. */
  ghost predicate OwnerOk(s: System, id: nat)
    requires SameLengths(s) && id < |s.owner|
  {
    && s.owner[id] in s.callers && s.owner[id] in s.asked
    && s.pipe.log[id] == s.asked[s.owner[id]]
    && JobOf(s.callers[s.owner[id]]) == Some(id)
    && (s.pipe.status[id] == Queued ==> !s.callers[s.owner[id]].Returned?)
    && (s.pipe.status[id] == PulledBack ==> s.callers[s.owner[id]] == Returned(Some(id), TimedOut))
  }

  ghost predicate SlotsInv(s: System) {
    forall id :: id in s.slots ==> id < |s.pipe.status| && s.pipe.status[id] == Attempted(s.slots[id])
  }

  /** The caller-side half of the invariant. */
  ghost predicate CallSide(s: System) {
    && SameLengths(s)
    && CallersInv(s)
    && (forall id :: 0 <= id < |s.owner| ==> OwnerOk(s, id))
    && SlotsInv(s)
  }

  ghost predicate Inv(s: System) {
    && PipeInv(s.pipe)
    && CallSide(s)
    && (s.pipe.inner.closed ==> forall c :: c in s.callers ==> s.callers[c].Returned?)
  }

  lemma EnqueueKeepsCallSide(s: System, c: nat, expired: bool)
    requires CallSide(s) && Enabled(s, TryAdmit(c, expired))
    requires Admit(s.pipe.inner, s.callers[c].data).1.Enqueued?
    ensures CallSide(Next(s, TryAdmit(c, expired)))
  {
    var t := Next(s, TryAdmit(c, expired));
    assert CallerOk(s, c, s.callers[c]);
    forall d | d in t.callers
      ensures CallerOk(t, d, t.callers[d])
    {
      assert d != c ==> CallerOk(s, d, s.callers[d]);
    }
    forall id | 0 <= id < |t.owner|
      ensures OwnerOk(t, id)
    {
      assert id < |s.owner| ==> OwnerOk(s, id);
    }
  }

  /** One call moved on by itself to `pc`, taking its result along if it returned. */
  lemma MovedKeepsCallSide(s: System, c: nat, pc: CallerPc, slots: map<nat, bool>)
    requires CallSide(s) && c in s.callers && !s.callers[c].Returned?
    requires CallerOk(s, c, pc) && JobOf(pc) == JobOf(s.callers[c])
    requires slots == s.slots || (pc.Returned? && pc.job.Some? && slots == s.slots - {pc.job.value})
    ensures CallSide(Move(s, c, pc).(slots := slots))
  {
    var t := Move(s, c, pc).(slots := slots);
    forall d | d in t.callers
      ensures CallerOk(t, d, t.callers[d])
    {
      assert CallerOk(s, d, s.callers[d]);
    }
    forall id | 0 <= id < |t.owner|
      ensures OwnerOk(t, id)
    {
      assert OwnerOk(s, id);
    }
  }

  lemma AdmitKeepsInv(s: System, c: nat, expired: bool)
    requires Inv(s) && Enabled(s, TryAdmit(c, expired))
    ensures Inv(Next(s, TryAdmit(c, expired)))
  {
    var t, data := Next(s, TryAdmit(c, expired)), s.callers[c].data;
    assert CallerOk(s, c, s.callers[c]);
    if Admit(s.pipe.inner, data).1.Enqueued? {
      PipeEnqueueInv(s.pipe, data);
      EnqueueKeepsCallSide(s, c, expired);
    } else {
      MovedKeepsCallSide(s, c, t.callers[c], s.slots);
    }
  }

  lemma LookKeepsInv(s: System, c: nat, expired: bool)
    requires Inv(s) && Enabled(s, LookForResult(c, expired))
    ensures Inv(Next(s, LookForResult(c, expired)))
  {
    assert CallerOk(s, c, s.callers[c]);
    var t := Next(s, LookForResult(c, expired));
    MovedKeepsCallSide(s, c, t.callers[c], t.slots);
  }

  /** Waking the senders after the byte count fell. */
  lemma NotifySpaceKeepsCallers(s: System, t: System, c: nat)
    requires CallSide(s) && c in s.callers && s.callers[c].Dropping?
    requires PulledBackFrom(s, t, c)
    ensures forall d :: d in t.callers && d != c ==> CallerOk(t, d, t.callers[d])
  {
    forall d | d in t.callers && d != c
      ensures CallerOk(t, d, t.callers[d])
    {
      assert CallerOk(s, d, s.callers[d]);
      assert CallerOk(s, c, s.callers[c]);
    }
  }

  ghost predicate PulledBackFrom(s: System, t: System, c: nat)
    requires SameLengths(s) && c in s.callers && s.callers[c].Dropping?
  {
    && s.callers[c].id < |s.pipe.status|
    && t == Next(s, PullBack(c))
    && (IsQueued(s.pipe, s.callers[c].id) <==> s.pipe.status[s.callers[c].id] == Queued)
    && t.pipe.inner.queuedBytes <= s.pipe.inner.queuedBytes
  }

  lemma PullBackKeepsCallSide(s: System, c: nat)
    requires CallSide(s) && c in s.callers && s.callers[c].Dropping? && PulledBackFrom(s, Next(s, PullBack(c)), c)
    ensures CallSide(Next(s, PullBack(c)))
  {
    var t := Next(s, PullBack(c));
    NotifySpaceKeepsCallers(s, t, c);
    assert CallerOk(s, c, s.callers[c]);
    assert CallerOk(t, c, t.callers[c]);
    forall id | 0 <= id < |t.owner|
      ensures OwnerOk(t, id)
    {
      assert OwnerOk(s, id);
    }
  }

  lemma PullBackKeepsInv(s: System, c: nat)
    requires Inv(s) && Enabled(s, PullBack(c))
    ensures Inv(Next(s, PullBack(c)))
  {
    var id := s.callers[c].id;
    assert CallerOk(s, c, s.callers[c]);
    PipePullBackInv(s.pipe, id);
    if IsQueued(s.pipe, id) {
      assert QueuedJob(s.pipe, s.pipe.inner.queue[Position(s.pipe.inner.queue, id)]);
    }
    PullBackKeepsCallSide(s, c);
  }

  lemma PollKeepsCallSide(s: System)
    requires CallSide(s) && Enabled(s, PollQueue)
    requires s.pipe.inner.queue != [] ==>
               s.pipe.inner.queue[0].id < |s.owner| && s.pipe.status[s.pipe.inner.queue[0].id] == Queued
    ensures CallSide(Next(s, PollQueue))
  {
    var t := Next(s, PollQueue);
    forall d | d in t.callers
      ensures CallerOk(t, d, t.callers[d])
    {
      assert CallerOk(s, d, s.callers[d]);
    }
    forall id | 0 <= id < |t.owner|
      ensures OwnerOk(t, id)
    {
      assert OwnerOk(s, id);
    }
  }

  lemma PollKeepsInv(s: System)
    requires Inv(s) && Enabled(s, PollQueue)
    ensures Inv(Next(s, PollQueue))
  {
    hide CallersInv, OwnerOk, SlotsInv;
    PipePollInv(s.pipe);
    if s.pipe.inner.queue != [] {
      assert QueuedJob(s.pipe, s.pipe.inner.queue[0]);
    }
    PollKeepsCallSide(s);
  }

  lemma WriteAllKeepsCallSide(s: System, ok: bool)
    requires CallSide(s) && Enabled(s, WriteAll(ok))
    requires s.pipe.writer.job.id < |s.owner| && s.pipe.status[s.pipe.writer.job.id] == Started
    ensures CallSide(Next(s, WriteAll(ok)))
  {
    var t := Next(s, WriteAll(ok));
    forall d | d in t.callers
      ensures CallerOk(t, d, t.callers[d])
    {
      assert CallerOk(s, d, s.callers[d]);
    }
    forall id | 0 <= id < |t.owner|
      ensures OwnerOk(t, id)
    {
      assert OwnerOk(s, id);
    }
  }

  lemma WriteAllKeepsInv(s: System, ok: bool)
    requires Inv(s) && Enabled(s, WriteAll(ok))
    ensures Inv(Next(s, WriteAll(ok)))
  {
    PipeWriteAllInv(s.pipe, ok);
    WriteAllKeepsCallSide(s, ok);
  }

  lemma DeliverKeepsCallSide(s: System)
    requires CallSide(s) && Enabled(s, Deliver)
    requires s.pipe.writer.job.id < |s.owner| && s.pipe.status[s.pipe.writer.job.id] == Attempted(s.pipe.writer.ok)
    ensures CallSide(Next(s, Deliver))
  {
    var t := Next(s, Deliver);
    forall d | d in t.callers
      ensures CallerOk(t, d, t.callers[d])
    {
      assert CallerOk(s, d, s.callers[d]);
    }
    forall id | 0 <= id < |t.owner|
      ensures OwnerOk(t, id)
    {
      assert OwnerOk(s, id);
    }
  }

  lemma DeliverKeepsInv(s: System)
    requires Inv(s) && Enabled(s, Deliver)
    ensures Inv(Next(s, Deliver))
  {
    hide CallersInv, OwnerOk, SlotsInv;
    PipeQuietInv(s.pipe, Next(s, Deliver).pipe.writer);
    DeliverKeepsCallSide(s);
  }

  /** The handle can only be dropped once every call has returned, and then nothing is queued. */
  lemma NoCallNoQueue(s: System)
    requires Inv(s) && forall c :: c in s.callers ==> s.callers[c].Returned?
    ensures s.pipe.inner.queue == []
    ensures forall id :: 0 <= id < |s.pipe.status| ==> s.pipe.status[id] != Queued
  {
    forall id | 0 <= id < |s.owner|
      ensures s.pipe.status[id] != Queued
    {
      assert OwnerOk(s, id);
    }
    assert s.pipe.inner.queue != [] ==> QueuedJob(s.pipe, s.pipe.inner.queue[0]);
  }

  lemma CloseKeepsInv(s: System)
    requires Inv(s) && Enabled(s, DropHandle)
    ensures Inv(Next(s, DropHandle))
  {
    hide Position;
    var t := Next(s, DropHandle);
    NoCallNoQueue(s);
    assert t.callers == s.callers;
    forall k | 0 <= k < |s.pipe.device|
      ensures AttemptOk(t.pipe, t.pipe.device[k])
    {
      assert AttemptOk(s.pipe, s.pipe.device[k]);
    }
    forall d | d in t.callers
      ensures CallerOk(t, d, t.callers[d])
    {
      assert CallerOk(s, d, s.callers[d]);
    }
    forall id | 0 <= id < |t.owner|
      ensures OwnerOk(t, id)
    {
      assert OwnerOk(s, id);
    }
  }

  lemma CallKeepsCallSide(s: System, c: nat, data: seq<Byte>)
    requires CallSide(s) && Enabled(s, Call(c, data))
    ensures CallSide(Next(s, Call(c, data)))
  {
    var t := Next(s, Call(c, data));
    forall d | d in t.callers
      ensures CallerOk(t, d, t.callers[d])
    {
      assert d != c ==> CallerOk(s, d, s.callers[d]);
    }
    forall id | 0 <= id < |t.owner|
      ensures OwnerOk(t, id)
    {
      assert OwnerOk(s, id);
    }
  }

  lemma MoveKeepsInv(s: System, step: Step)
    requires Inv(s) && Enabled(s, step)
    requires step.Call? || step.SpaceWake? || step.SpaceTimeout? || step.DoneWake? || step.DoneTimeout?
    ensures Inv(Next(s, step))
  {
    hide PipeInv;
    var c, t := step.caller, Next(s, step);
    if step.Call? {
      hide CallSide;
      CallKeepsCallSide(s, c, step.data);
    } else {
      assert CallerOk(s, c, s.callers[c]);
      MovedKeepsCallSide(s, c, t.callers[c], s.slots);
    }
  }

  lemma WriterMoveKeepsCallSide(s: System, writer: WriterPc)
    requires CallSide(s) && !s.pipe.writer.Delivering? && !writer.Delivering?
    ensures CallSide(s.(pipe := s.pipe.(writer := writer)))
  {
    var t := s.(pipe := s.pipe.(writer := writer));
    forall d | d in t.callers
      ensures CallerOk(t, d, t.callers[d])
    {
      assert CallerOk(s, d, s.callers[d]);
    }
    forall id | 0 <= id < |t.owner|
      ensures OwnerOk(t, id)
    {
      assert OwnerOk(s, id);
    }
  }

  lemma WriterMoveKeepsInv(s: System, step: Step)
    requires Inv(s) && Enabled(s, step)
    requires step.JobWake? || step.CheckClosed?
    ensures Inv(Next(s, step))
  {
    hide PipeInv, CallSide;
    var writer := Next(s, step).pipe.writer;
    PipeQuietInv(s.pipe, writer);
    WriterMoveKeepsCallSide(s, writer);
  }

  lemma StepKeepsInv(s: System, step: Step)
    requires Inv(s) && Enabled(s, step)
    ensures Inv(Next(s, step))
  {
    hide Inv;
    match step
    case TryAdmit(c, expired) => AdmitKeepsInv(s, c, expired);
    case LookForResult(c, expired) => LookKeepsInv(s, c, expired);
    case PullBack(c) => PullBackKeepsInv(s, c);
    case PollQueue => PollKeepsInv(s);
    case WriteAll(ok) => WriteAllKeepsInv(s, ok);
    case Deliver => DeliverKeepsInv(s);
    case DropHandle => CloseKeepsInv(s);
    case JobWake => WriterMoveKeepsInv(s, step);
    case CheckClosed => WriterMoveKeepsInv(s, step);
    case _ => MoveKeepsInv(s, step);
  }

  // --- runs ----------------------------------------------------------------------------

  /** `states` is what happens when `steps` are taken from `start`, each when it can be. */
  ghost predicate IsRun(start: System, states: seq<System>, steps: seq<Step>) {
    && |states| == |steps| + 1
    && states[0] == start
    && forall i :: 0 <= i < |steps| ==> Enabled(states[i], steps[i]) && states[i + 1] == Next(states[i], steps[i])
  }

  lemma {:induction false} RunKeepsInv(start: System, states: seq<System>, steps: seq<Step>, i: nat)
    requires Inv(start) && IsRun(start, states, steps) && i < |states|
    ensures Inv(states[i])
  {
    if i == 0 {
    } else {
      RunKeepsInv(start, states, steps, i - 1);
      StepKeepsInv(states[i - 1], steps[i - 1]);
    }
  }

  lemma ReachableInv(states: seq<System>, steps: seq<Step>, i: nat)
    requires IsRun(INITIAL, states, steps) && i < |states|
    ensures Inv(states[i])
  {
    RunKeepsInv(INITIAL, states, steps, i);
  }

  /** What is settled stays settled. */
  ghost predicate Extends(s: System, t: System) {
    && s.pipe.device <= t.pipe.device
    && s.pipe.log <= t.pipe.log
    && s.owner <= t.owner
    && |s.pipe.status| <= |t.pipe.status|
    && (forall id :: 0 <= id < |s.pipe.status| && (s.pipe.status[id].Attempted? || s.pipe.status[id] == PulledBack)
          ==> t.pipe.status[id] == s.pipe.status[id])
    && (forall c :: c in s.callers && s.callers[c].Returned? ==> c in t.callers && t.callers[c] == s.callers[c])
  }

  lemma StepExtends(s: System, step: Step)
    requires Inv(s) && Enabled(s, step)
    ensures Extends(s, Next(s, step))
  {
    if step.PullBack? {
      hide Extends;
      assert CallerOk(s, step.caller, s.callers[step.caller]);
      PullBackExtends(s, step.caller);
    } else if step.PollQueue? {
      hide Extends;
      assert s.pipe.inner.queue != [] ==> QueuedJob(s.pipe, s.pipe.inner.queue[0]);
      PollExtends(s);
    } else if step.WriteAll? {
      hide QueueInv, BytesInv, DeviceInv, CallersInv, OwnerOk;
    } else {
      hide Inv;
      OtherStepExtends(s, step);
    }
  }

  lemma OtherStepExtends(s: System, step: Step)
    requires !step.PullBack? && !step.PollQueue? && !step.WriteAll? && Enabled(s, step)
    ensures Extends(s, Next(s, step))
  {
  }

  lemma PollExtends(s: System)
    requires Enabled(s, PollQueue)
    requires s.pipe.inner.queue != [] ==>
               s.pipe.inner.queue[0].id < |s.pipe.status| && s.pipe.status[s.pipe.inner.queue[0].id] == Queued
    ensures Extends(s, Next(s, PollQueue))
  {
  }

  lemma PullBackExtends(s: System, c: nat)
    requires QueueInv(s.pipe) && Enabled(s, PullBack(c)) && s.callers[c].id < |s.pipe.log|
    ensures Extends(s, Next(s, PullBack(c)))
  {
    hide Position;
    if IsQueued(s.pipe, s.callers[c].id) {
      PullBackTakesOut(s.pipe, s.callers[c].id);
      assert QueuedJob(s.pipe, s.pipe.inner.queue[Position(s.pipe.inner.queue, s.callers[c].id)]);
    }
  }

  lemma ExtendsTransitive(s: System, t: System, u: System)
    requires Extends(s, t) && Extends(t, u)
    ensures Extends(s, u)
  {
  }

  lemma {:induction false} RunExtends(start: System, states: seq<System>, steps: seq<Step>, i: nat, j: nat)
    requires Inv(start) && IsRun(start, states, steps) && i <= j < |states|
    ensures Extends(states[i], states[j])
  {
    hide Inv, Next;
    if i == j {
    } else {
      RunExtends(start, states, steps, i, j - 1);
      RunKeepsInv(start, states, steps, j - 1);
      StepExtends(states[j - 1], steps[j - 1]);
      hide Extends;
      ExtendsTransitive(states[i], states[j - 1], states[j]);
    }
  }

  // --- what every run guarantees -------------------------------------------------------

  /** Batches reach the device whole, in strictly increasing enqueue order, each at most once. */
  lemma BatchesReachTheDeviceInOrder(states: seq<System>, steps: seq<Step>, i: nat)
    requires IsRun(INITIAL, states, steps) && i < |states|
    ensures var s := states[i];
            && (forall k, l :: 0 <= k < l < |s.pipe.device| ==> s.pipe.device[k].id < s.pipe.device[l].id)
            && (forall k :: 0 <= k < |s.pipe.device| ==>
                  && s.pipe.device[k].id < |s.owner|
                  && s.owner[s.pipe.device[k].id] in s.asked
                  && s.pipe.device[k].bytes == s.asked[s.owner[s.pipe.device[k].id]])
  {
    hide IsRun;
    ReachableInv(states, steps, i);
    var s := states[i];
    forall k | 0 <= k < |s.pipe.device|
      ensures s.pipe.device[k].id < |s.owner| && s.owner[s.pipe.device[k].id] in s.asked
      ensures s.pipe.device[k].bytes == s.asked[s.owner[s.pipe.device[k].id]]
    {
      assert AttemptOk(s.pipe, s.pipe.device[k]);
      assert OwnerOk(s, s.pipe.device[k].id);
    }
  }

  function OwnerOf(s: System, id: nat): Option<nat> {
    if id < |s.owner| then Some(s.owner[id]) else None
  }

  /** Attempt `k` wrote the whole batch of call `c`, and no other attempt was for `c`. */
  ghost predicate WrittenOnceAt(s: System, c: nat, k: nat) {
    && k < |s.pipe.device| && c in s.asked
    && s.pipe.device[k].ok
    && s.pipe.device[k].bytes == s.asked[c]
    && OwnerOf(s, s.pipe.device[k].id) == Some(c)
    && forall l :: 0 <= l < |s.pipe.device| && l != k ==> OwnerOf(s, s.pipe.device[l].id) != Some(c)
  }

  /** A call that returned Ok had its whole batch written, exactly once, before it returned. */
  lemma OkMeansWrittenOnce(states: seq<System>, steps: seq<Step>, i: nat, c: nat)
    requires IsRun(INITIAL, states, steps) && i < |states|
    requires c in states[i].callers && states[i].callers[c].Returned? && states[i].callers[c].outcome == Written
    ensures c in states[i].asked
    ensures states[i].asked[c] != [] ==> exists k :: WrittenOnceAt(states[i], c, k)
  {
    hide *;
    ReachableInv(states, steps, i);
    WrittenIsOnce(states[i], c);
  }

  lemma WrittenIsOnce(s: System, c: nat)
    requires Inv(s) && c in s.callers && s.callers[c].Returned? && s.callers[c].outcome == Written
    ensures c in s.asked
    ensures s.asked[c] != [] ==> exists k :: WrittenOnceAt(s, c, k)
  {
    hide QueueInv, BytesInv, WriterInv;
    assert CallerOk(s, c, s.callers[c]);
    if s.asked[c] != [] {
      var id := s.callers[c].job.value;
      assert OwnerOk(s, id);
      var k: nat :| k < |s.pipe.device| && s.pipe.device[k] == Attempt(id, s.pipe.log[id], true);
      AttemptsHaveOneOwner(s, k);
      assert WrittenOnceAt(s, c, k);
    }
  }

  lemma AttemptsHaveOneOwner(s: System, k: nat)
    requires Inv(s) && k < |s.pipe.device|
    ensures forall l :: 0 <= l < |s.pipe.device| && l != k ==>
              OwnerOf(s, s.pipe.device[l].id) != OwnerOf(s, s.pipe.device[k].id)
  {
    hide BytesInv, WriterInv, CallersInv, SlotsInv, QueueInv;
    assert AttemptOk(s.pipe, s.pipe.device[k]);
    assert OwnerOk(s, s.pipe.device[k].id);
    forall l | 0 <= l < |s.pipe.device| && l != k
      ensures OwnerOf(s, s.pipe.device[l].id) != OwnerOf(s, s.pipe.device[k].id)
    {
      assert AttemptOk(s.pipe, s.pipe.device[l]);
      assert OwnerOk(s, s.pipe.device[l].id);
    }
  }

  /** A call that gave up waiting for space was never enqueued, and never will be. */
  lemma SpaceTimeoutNeverEnqueued(states: seq<System>, steps: seq<Step>, i: nat, j: nat, c: nat)
    requires IsRun(INITIAL, states, steps) && i <= j < |states|
    requires c in states[i].callers && states[i].callers[c] == Returned(None, TimedOut)
    ensures c !in states[j].owner
  {
    hide IsRun;
    ReachableInv(states, steps, j);
    RunExtends(INITIAL, states, steps, i, j);
    forall id | 0 <= id < |states[j].owner|
      ensures states[j].owner[id] != c
    {
      assert OwnerOk(states[j], id);
    }
  }

  /** Every batch is queued, in flight, attempted on the device or pulled back: exactly one of these. */
  lemma EveryBatchIsInOnePlace(states: seq<System>, steps: seq<Step>, i: nat, id: nat)
    requires IsRun(INITIAL, states, steps) && i < |states| && id < states[i].pipe.inner.nextId
    ensures var p := states[i].pipe;
            var queued := exists k :: 0 <= k < |p.inner.queue| && p.inner.queue[k].id == id;
            var inFlight := p.writer.Writing? && p.writer.job.id == id;
            var onDevice := exists k :: 0 <= k < |p.device| && p.device[k].id == id;
            && |p.status| == p.inner.nextId
            && (queued <==> p.status[id] == Queued)
            && (inFlight <==> p.status[id] == Started)
            && (onDevice <==> p.status[id].Attempted?)
  {
    hide IsRun;
    ReachableInv(states, steps, i);
    var p := states[i].pipe;
    if p.status[id] == Queued {
      assert IsQueued(p, id);
    }
    if k :| 0 <= k < |p.inner.queue| && p.inner.queue[k].id == id {
      assert QueuedJob(p, p.inner.queue[k]);
    }
    if p.status[id].Attempted? {
      var k :| 0 <= k < |p.device| && p.device[k] == Attempt(id, p.log[id], p.status[id].ok);
    }
    if k :| 0 <= k < |p.device| && p.device[k].id == id {
      assert AttemptOk(p, p.device[k]);
    }
  }

  ghost predicate SeenByDevice(s: System, id: nat) {
    exists k :: 0 <= k < |s.pipe.device| && s.pipe.device[k].id == id
  }

  /** A job pulled back out of the queue is never written, whatever happens next. */
  lemma PulledBackNeverWritten(start: System, states: seq<System>, steps: seq<Step>, i: nat, j: nat, id: nat)
    requires Inv(start) && IsRun(start, states, steps) && i <= j < |states|
    requires id < |states[i].pipe.status| && states[i].pipe.status[id] == PulledBack
    ensures !SeenByDevice(states[j], id)
  {
    RunKeepsInv(start, states, steps, j);
    RunExtends(start, states, steps, i, j);
    forall k | 0 <= k < |states[j].pipe.device|
      ensures states[j].pipe.device[k].id != id
    {
      assert AttemptOk(states[j].pipe, states[j].pipe.device[k]);
    }
  }

  /**
    A call that timed out after being enqueued may still have been written. It is certain not
    to be, in this state and every continuation, exactly when its job was pulled back.
   */
  lemma TimedOutStaysUnwrittenIffPulledBack(s: System, c: nat, id: nat)
    requires Inv(s) && c in s.callers && s.callers[c] == Returned(Some(id), TimedOut)
    ensures id < |s.pipe.status|
    ensures s.pipe.status[id] == PulledBack <==>
            forall states, steps | IsRun(s, states, steps) :: !SeenByDevice(states[|steps|], id)
  {
    assert CallerOk(s, c, s.callers[c]);
    if s.pipe.status[id] == PulledBack {
      forall states, steps | IsRun(s, states, steps)
        ensures !SeenByDevice(states[|steps|], id)
      {
        PulledBackNeverWritten(s, states, steps, 0, |steps|, id);
      }
    } else if s.pipe.status[id] == Started {
      var t := Next(s, WriteAll(true));
      assert IsRun(s, [s, t], [WriteAll(true)]);
      assert t.pipe.device[|s.pipe.device|].id == id;
      assert SeenByDevice([s, t][1], id);
    } else {
      assert IsRun(s, [s], []);
      var k :| 0 <= k < |s.pipe.device| && s.pipe.device[k] == Attempt(id, s.pipe.log[id], s.pipe.status[id].ok);
      assert SeenByDevice([s][0], id);
    }
  }

  /** A run in which a call reports a timeout and its batch is written all the same. */
  lemma TimedOutYetWritten() returns (states: seq<System>, steps: seq<Step>)
    ensures IsRun(INITIAL, states, steps)
    ensures states[|steps|].callers == map[0 := Returned(Some(0), TimedOut)]
    ensures states[|steps|].pipe.device == [Attempt(0, [13], true)]
  {
    steps := [Call(0, [13]), TryAdmit(0, false), PollQueue, LookForResult(0, true), PullBack(0), WriteAll(true)];
    var s1 := Next(INITIAL, steps[0]);
    var s2 := Next(s1, steps[1]);
    var s3 := Next(s2, steps[2]);
    var s4 := Next(s3, steps[3]);
    var s5 := Next(s4, steps[4]);
    states := [INITIAL, s1, s2, s3, s4, s5, Next(s5, steps[5])];
  }

  /** The byte count is exact and bounded; a single oversized batch is the only exception. */
  lemma QueueStaysBounded(states: seq<System>, steps: seq<Step>, i: nat)
    requires IsRun(INITIAL, states, steps) && i < |states|
    ensures var inner := states[i].pipe.inner;
            && inner.queuedBytes == TotalBytes(inner.queue)
            && (inner.queuedBytes <= MAX_WRITE_QUEUE_BYTES || |inner.queue| == 1)
  {
    hide IsRun;
    ReachableInv(states, steps, i);
  }

  /** Nobody sleeps through the event it waits for. */
  lemma NoLostWakeups(states: seq<System>, steps: seq<Step>, i: nat)
    requires IsRun(INITIAL, states, steps) && i < |states|
    ensures var s := states[i];
            && (forall c :: c in s.callers && s.callers[c].AsleepForSpace? ==>
                  !s.pipe.inner.closed && !Fits(s.pipe.inner, |s.callers[c].data|))
            && (s.pipe.writer.AsleepForJob? ==> s.pipe.inner.queue == [] && !s.pipe.inner.closed)
            && (s.pipe.writer.Exited? ==> s.pipe.inner.queue == [] && s.pipe.inner.closed)
            && (forall c :: c in s.callers && s.callers[c].AsleepForDone? ==>
                  s.callers[c].id !in s.slots && Upcoming(s.pipe, s.callers[c].id))
  {
    hide IsRun;
    ReachableInv(states, steps, i);
    var s := states[i];
    forall c | c in s.callers && (s.callers[c].AsleepForSpace? || s.callers[c].AsleepForDone?)
      ensures CallerOk(s, c, s.callers[c])
    {
    }
  }

  /** In a state a run can reach, a queue holds no bytes exactly when it holds no job. */
  lemma EmptyIffNoBytes(p: Pipe)
    requires QueueInv(p) && BytesInv(p)
    ensures p.inner.queuedBytes == TotalBytes(p.inner.queue)
    ensures TotalBytes(p.inner.queue) == 0 <==> p.inner.queue == []
  {
    assert p.inner.queue != [] ==> QueuedJob(p, p.inner.queue[0]);
  }

  /** A caller asleep for space faces a queue that is not empty and that its batch would overfill. */
  lemma SleepersFaceAFullQueue(states: seq<System>, steps: seq<Step>, i: nat, c: nat)
    requires IsRun(INITIAL, states, steps) && i < |states|
    requires c in states[i].callers && states[i].callers[c].AsleepForSpace?
    ensures var queue := states[i].pipe.inner.queue;
            queue != [] && TotalBytes(queue) + |states[i].callers[c].data| > 1024 * 1024
  {
    hide IsRun;
    ReachableInv(states, steps, i);
    EmptyIffNoBytes(states[i].pipe);
    assert CallerOk(states[i], c, states[i].callers[c]);
  }

  /**
    An open writer admits a batch exactly when the queue is empty or stays within a mebibyte; the
    batch then stands last, and its caller waits for it. Otherwise the caller sleeps, or gives up
    when its time is over.
   */
  lemma OpenWriterAdmitsIff(states: seq<System>, steps: seq<Step>, c: nat, expired: bool)
    requires IsRun(INITIAL, states, steps)
    requires c in states[|steps|].callers && states[|steps|].callers[c].Admitting?
    ensures var s := states[|steps|];
            var t := Next(s, TryAdmit(c, expired));
            var data, queue := s.callers[c].data, s.pipe.inner.queue;
            var admits := !s.pipe.inner.closed && (queue == [] || TotalBytes(queue) + |data| <= 1024 * 1024);
            && (t.callers[c].Waiting? <==> admits)
            && t.pipe.inner.queue == (if admits then queue + [QueuedWrite(|s.owner|, data)] else queue)
            && (admits ==> t.callers[c] == Waiting(|s.owner|, |data|))
            && (s.pipe.inner.closed ==> t.callers[c] == Returned(None, Refused))
            && (!admits && !s.pipe.inner.closed ==>
                  t.callers[c] == if expired then Returned(None, TimedOut) else AsleepForSpace(data))
  {
    ReachableInv(states, steps, |steps|);
    hide IsRun;
    EmptyIffNoBytes(states[|steps|].pipe);
    hide DeviceInv, WriterInv, CallersInv, SlotsInv, QueueInv;
  }

  predicate GivesUp(pc: CallerPc) {
    pc.Dropping? || (pc.Returned? && pc.outcome == TimedOut)
  }

  /** A call gives up only in a step of its own whose time is over. */
  lemma GivingUpTakesTime(s: System, step: Step, c: nat)
    requires Enabled(s, step) && c in s.callers && !GivesUp(s.callers[c])
    requires c in Next(s, step).callers && GivesUp(Next(s, step).callers[c])
    ensures || step == TryAdmit(c, true) || step == SpaceTimeout(c)
            || step == LookForResult(c, true) || step == DoneTimeout(c)
  {
    hide Position, Take, Drop;
  }

  /** A queued batch always has its caller inside `write`, so dropping the last handle abandons none. */
  lemma DroppingTheHandleAbandonsNothing(states: seq<System>, steps: seq<Step>, i: nat)
    requires IsRun(INITIAL, states, steps) && i < |states|
    ensures var s := states[i];
            && (forall k :: 0 <= k < |s.pipe.inner.queue| ==>
                  && s.pipe.inner.queue[k].id < |s.owner|
                  && s.owner[s.pipe.inner.queue[k].id] in s.callers
                  && !s.callers[s.owner[s.pipe.inner.queue[k].id]].Returned?)
            && (s.pipe.inner.closed || Enabled(s, DropHandle) ==> s.pipe.inner.queue == [])
  {
    hide IsRun;
    ReachableInv(states, steps, i);
    var s := states[i];
    forall k | 0 <= k < |s.pipe.inner.queue|
      ensures s.pipe.inner.queue[k].id < |s.owner|
      ensures s.owner[s.pipe.inner.queue[k].id] in s.callers
      ensures !s.callers[s.owner[s.pipe.inner.queue[k].id]].Returned?
    {
      assert QueuedJob(s.pipe, s.pipe.inner.queue[k]);
      assert OwnerOk(s, s.pipe.inner.queue[k].id);
    }
  }

  function WriterRank(writer: WriterPc): nat {
    match writer
    case Writing(_) => 4
    case Delivering(_, _) => 3
    case AfterFailure => 2
    case Polling => 1
    case _ => 0
  }

  /** How many steps the writer thread can still take without a new batch or wakeup. */
  function WorkLeft(p: Pipe): nat {
    4 * |p.inner.queue| + WriterRank(p.writer)
  }

  /** While work is left the writer has a step of its own, and each such step leaves less. */
  lemma WriterMakesProgress(s: System)
    requires Inv(s) && WorkLeft(s.pipe) > 0
    ensures exists step: Step ::
              && (step.PollQueue? || step.WriteAll? || step.Deliver? || step.CheckClosed?)
              && Enabled(s, step)
    ensures forall step: Step ::
              (step.PollQueue? || step.WriteAll? || step.Deliver? || step.CheckClosed?) && Enabled(s, step) ==>
                WorkLeft(Next(s, step).pipe) < WorkLeft(s.pipe)
  {
    hide CallSide, BytesInv, DeviceInv, QueueInv;
    var step := match s.pipe.writer
      case Writing(_) => WriteAll(true)
      case Delivering(_, _) => Deliver
      case AfterFailure => CheckClosed
      case _ => PollQueue;
    assert Enabled(s, step);
  }
}
