/**
  Every interleaving of the `create` task with the stream task's frames and exit, one lock
  section or sink call a step. While `create` drains it holds the gate lock.
 */
module GateRuns {
  import opened Bytes
  import opened Options
  import opened Scrollback
  import opened ReplayGate

  datatype CreatePc =
    | AwaitingReply
    | Replied
    | Hydrated
    | Draining(held: seq<Frame>)
    | DrainSending(chunk: seq<Byte>, held: seq<Frame>)   // mirrored, not yet handed to the sink
    | Marking                                            // gate released, early exit to finish
    | Removing
    | Created
    | Failed

  datatype StreamPc =
    | Listening
    | Mirroring(chunk: seq<Byte>)                        // past the gate check, off its lock
    | Sending(chunk: seq<Byte>)
    | ExitMarking
    | ExitRemoving
    | Gone

  /**
    `base` is the session byte the first delivered frame starts at. History: the bytes
    delivered so far, how often the pane was registered, whether its exit was delivered,
    whether it beat `open_gate`, and whether a frame past the gate began below the snapshot.
   */
  datatype System = System(
    base: nat, adapter: Adapter, snapshot: Option<nat>, hydration: seq<Byte>,
    create: CreatePc, stream: StreamPc,
    received: seq<Byte>, registrations: nat, exitDelivered: bool, early: bool, lateBelow: bool)

  function Initial(base: nat): System {
    System(base, Adapter(Closed([], false), Ring([], false), [], false, false), None, [],
           AwaitingReply, Listening, [], 0, false, false, false)
  }

  datatype Step =
    | Reply(snapshot: Option<nat>, hydration: seq<Byte>)
    | ReplyFailed
    | Hydrate(truncated: bool)
    | Open
    | DrainNext
    | DrainSend
    | MarkEarly
    | RemoveEarly
    | Data(chunk: seq<Byte>)
    | StreamMirror
    | StreamSend
    | Exit
    | MarkExit
    | RemoveExit

  predicate LockFree(s: System) {
    !s.create.Draining? && !s.create.DrainSending?
  }

  predicate Enabled(s: System, step: Step) {
    match step
    case Reply(_, _) => s.create.AwaitingReply?
    case ReplyFailed => s.create.AwaitingReply?
    case Hydrate(_) => s.create.Replied?
    case Open => s.create.Hydrated?
    case DrainNext => s.create.Draining?
    case DrainSend => s.create.DrainSending?
    case MarkEarly => s.create.Marking?
    case RemoveEarly => s.create.Removing?
    case Data(_) => s.stream.Listening? && LockFree(s)
    case StreamMirror => s.stream.Mirroring?
    case StreamSend => s.stream.Sending?
    case Exit => s.stream.Listening? && LockFree(s)
    case MarkExit => s.stream.ExitMarking?
    case RemoveExit => s.stream.ExitRemoving?
  }

  function Mirrored(a: Adapter, chunk: seq<Byte>): Adapter {
    a.(mirror := Appended(a.mirror, chunk, MAX_SCROLLBACK_BYTES))
  }

  function Sent(a: Adapter, chunk: seq<Byte>): Adapter {
    a.(output := a.output + chunk)
  }

  function AfterOpen(s: System): System {
    var Held(frames, exited) := HeldBy(s.adapter.gate);
    s.(adapter := s.adapter.(gate := Gate.Open, registered := s.adapter.registered || !exited),
       create := Draining(frames),
       registrations := s.registrations + if exited then 0 else 1,
       early := exited)
  }

  function AfterDrainNext(s: System, held: seq<Frame>): System {
    if held == [] then s.(create := if s.early then Marking else Created)
    else
      match Kept(held[0], s.snapshot)
      case None => s.(create := Draining(held[1..]))
      case Some(chunk) => s.(adapter := Mirrored(s.adapter, chunk), create := DrainSending(chunk, held[1..]))
  }

  function AfterData(s: System, chunk: seq<Byte>): System {
    var t := s.(received := s.received + chunk);
    match s.adapter.gate
    case Closed(frames, exited) =>
      t.(adapter := s.adapter.(gate := Closed(frames + [Frame(s.base + |s.received| + |chunk|, chunk)], exited)))
    case Open =>
      t.(stream := Mirroring(chunk),
         lateBelow := s.lateBelow || (chunk != [] && Covered(s.snapshot, s.base + |s.received|) > 0))
  }

  function Next(s: System, step: Step): System
    requires Enabled(s, step)
  {
    match step
    case Reply(snapshot, hydration) => s.(snapshot := snapshot, hydration := hydration, create := Replied)
    case ReplyFailed => s.(create := Failed)
    case Hydrate(truncated) =>
      s.(adapter := Mirrored(s.adapter.(mirror := Ring([], truncated), readerExited := false), s.hydration),
         create := Hydrated)
    case Open => AfterOpen(s)
    case DrainNext => AfterDrainNext(s, s.create.held)
    case DrainSend => s.(adapter := Sent(s.adapter, s.create.chunk), create := Draining(s.create.held))
    case MarkEarly => s.(adapter := s.adapter.(readerExited := true), create := Removing)
    case RemoveEarly => s.(adapter := s.adapter.(registered := false), create := Created)
    case Data(chunk) => AfterData(s, chunk)
    case StreamMirror => s.(adapter := Mirrored(s.adapter, s.stream.chunk), stream := Sending(s.stream.chunk))
    case StreamSend => s.(adapter := Sent(s.adapter, s.stream.chunk), stream := Listening)
    case Exit =>
      if s.adapter.gate.Closed? then
        s.(adapter := s.adapter.(gate := s.adapter.gate.(exited := true)), stream := Gone, exitDelivered := true)
      else s.(stream := ExitMarking, exitDelivered := true)
    case MarkExit => s.(adapter := s.adapter.(readerExited := true), stream := ExitRemoving)
    case RemoveExit => s.(adapter := s.adapter.(registered := false), stream := Gone)
  }

  /** The bytes past the gate, in the order they reach the sink: sent, held, then in flight. */
  function Forwarded(s: System): seq<Byte> {
    Mirror(s) + Replayed(HeldFrames(s), s.snapshot) + if s.stream.Mirroring? then s.stream.chunk else []
  }

  function HeldFrames(s: System): seq<Frame> {
    if s.create.Draining? || s.create.DrainSending? then s.create.held else []
  }

  /** The bytes already in the scrollback mirror. */
  function Mirror(s: System): seq<Byte> {
    s.adapter.output
    + (if s.create.DrainSending? then s.create.chunk else [])
    + (if s.stream.Sending? then s.stream.chunk else [])
  }

  /** What the sink should see of the bytes received so far. */
  function Expected(s: System): seq<Byte> {
    From(s.received, Covered(s.snapshot, s.base))
  }

  ghost predicate ClosedInv(s: System) {
    s.adapter.gate.Closed? ==>
      && (s.create.AwaitingReply? || s.create.Replied? || s.create.Hydrated? || s.create.Failed?)
      && (s.stream.Listening? || s.stream.Gone?)
      && s.adapter.output == []
      && Payload(s.adapter.gate.frames) == s.received
      && Contiguous(s.adapter.gate.frames, s.base)
      && s.adapter.gate.exited == s.exitDelivered
      && !s.adapter.registered && s.registrations == 0 && !s.lateBelow && !s.adapter.readerExited
      && (s.create.Hydrated? ==> s.adapter.mirror.bytes == Last(s.hydration, MAX_SCROLLBACK_BYTES))
  }

  ghost predicate StreamInv(s: System) {
    s.adapter.gate.Open? ==>
      && (s.lateBelow ==> |Expected(s)| < |Forwarded(s)|)
      && (!s.lateBelow ==> Forwarded(s) == Expected(s))
      && s.adapter.mirror.bytes == Last(s.hydration + Mirror(s), MAX_SCROLLBACK_BYTES)
  }

  ghost predicate PhaseInv(s: System) {
    && (s.adapter.gate.Open? <==>
          s.create.Draining? || s.create.DrainSending? || s.create.Marking? || s.create.Removing? || s.create.Created?)
    && (s.exitDelivered <==> s.stream.ExitMarking? || s.stream.ExitRemoving? || s.stream.Gone?)
    && (!LockFree(s) ==> s.stream.Listening? || (s.early && s.stream.Gone?))
    && (s.early ==> s.adapter.gate.Open? && s.stream.Gone? && !s.lateBelow)
    && (s.create.Marking? || s.create.Removing? ==> s.early)
    && (s.adapter.gate.Open? ==>
          && s.registrations == (if s.early then 0 else 1)
          && (s.adapter.registered <==> !s.early && !s.stream.Gone?)
          && (s.adapter.readerExited <==>
                if s.early then s.create.Removing? || s.create.Created? else s.stream.ExitRemoving? || s.stream.Gone?))
  }

  ghost predicate Inv(s: System) {
    ClosedInv(s) && StreamInv(s) && PhaseInv(s)
  }

  /** Forwarding what is forwarded anyway, with the mirror up to date, keeps the stream side. */
  lemma SameForwarded(s: System, t: System)
    requires StreamInv(s) && s.adapter.gate.Open? && t.adapter.gate.Open?
    requires Forwarded(t) == Forwarded(s) && Expected(t) == Expected(s) && t.lateBelow == s.lateBelow
    requires t.adapter.mirror.bytes == Last(t.hydration + Mirror(t), MAX_SCROLLBACK_BYTES)
    ensures StreamInv(t)
  {
  }

  lemma DrainSendKeepsStream(s: System)
    requires Inv(s) && s.create.DrainSending?
    ensures StreamInv(Next(s, DrainSend))
  {
    var t := Next(s, DrainSend);
    hide ClosedInv, Last, Covered, Replayed;
    assert Mirror(t) == Mirror(s);
    SameForwarded(s, t);
  }

  /** Mirroring one more chunk keeps the mirror at the end of what was mirrored. */
  lemma MirrorGrows(s: System, t: System, chunk: seq<Byte>)
    requires s.adapter.mirror.bytes == Last(s.hydration + Mirror(s), MAX_SCROLLBACK_BYTES)
    requires t.hydration == s.hydration && t.adapter.mirror == Appended(s.adapter.mirror, chunk, MAX_SCROLLBACK_BYTES)
    requires Mirror(t) == Mirror(s) + chunk
    ensures t.adapter.mirror.bytes == Last(t.hydration + Mirror(t), MAX_SCROLLBACK_BYTES)
  {
    hide Mirror, Last, Appended;
    AppendedShowsTheEnd(s.adapter.mirror, s.hydration + Mirror(s), chunk, MAX_SCROLLBACK_BYTES);
    assert t.hydration + Mirror(t) == (s.hydration + Mirror(s)) + chunk;
  }

  lemma DrainNextKeepsStream(s: System)
    requires Inv(s) && s.create.Draining?
    ensures StreamInv(Next(s, DrainNext))
  {
    var t := Next(s, DrainNext);
    hide ClosedInv, Last, Covered, Appended, Kept;
    if s.create.held == [] {
      assert Mirror(t) == Mirror(s);
    } else {
      var bytes := KeptBytes(s.create.held[0], s.snapshot);
      assert Mirror(t) == Mirror(s) + bytes;
      if Kept(s.create.held[0], s.snapshot).Some? {
        MirrorGrows(s, t, bytes);
      } else {
        assert Mirror(t) == Mirror(s);
      }
      DrainNextForwards(s);
    }
    SameForwarded(s, t);
  }

  lemma Regroup(sent: seq<Byte>, next: seq<Byte>, later: seq<Byte>, last: seq<Byte>)
    ensures (sent + next) + later + last == sent + (next + later) + last
  {
  }

  lemma DrainNextForwards(s: System)
    requires s.create.Draining? && s.create.held != [] && !s.stream.Sending?
    ensures Forwarded(Next(s, DrainNext)) == Forwarded(s)
  {
    hide Kept, Appended;
    var t, bytes := Next(s, DrainNext), KeptBytes(s.create.held[0], s.snapshot);
    assert Mirror(t) == Mirror(s) + bytes;
    assert Replayed(HeldFrames(s), s.snapshot) == bytes + Replayed(HeldFrames(t), s.snapshot);
    assert t.stream == s.stream && t.snapshot == s.snapshot;
    hide Next, Mirror, Replayed, HeldFrames, KeptBytes;
    Regroup(Mirror(s), bytes, Replayed(HeldFrames(t), s.snapshot), if s.stream.Mirroring? then s.stream.chunk else []);
  }

  lemma StepKeepsPhase(s: System, step: Step)
    requires Inv(s) && Enabled(s, step)
    ensures PhaseInv(Next(s, step))
  {
    hide StreamInv, Appended, Kept;
  }

  lemma StepKeepsClosed(s: System, step: Step)
    requires Inv(s) && Enabled(s, step)
    ensures ClosedInv(Next(s, step))
  {
    hide StreamInv;
    if step.Data? && s.adapter.gate.Closed? {
      var frame := Frame(s.base + |s.received| + |step.chunk|, step.chunk);
      PayloadAppend(s.adapter.gate.frames, frame);
      ContiguousAppend(s.adapter.gate.frames, frame, s.base);
    }
  }

  lemma OpenedStream(t: System)
    requires Forwarded(t) == Expected(t) && !t.lateBelow
    requires t.adapter.mirror.bytes == Last(t.hydration + Mirror(t), MAX_SCROLLBACK_BYTES)
    ensures StreamInv(t)
  {
    hide Forwarded, Expected, Mirror, Last;
  }

  lemma OpenStartsTheStream(s: System)
    requires Inv(s) && Enabled(s, Step.Open)
    ensures StreamInv(Next(s, Step.Open))
  {
    ReplayStartsAtTheSnapshot(s.adapter.gate.frames, s.snapshot, s.base);
    hide Last, Covered, Contiguous, Kept, KeptBytes, Replayed, Payload, From, StreamInv;
    var t := Next(s, Step.Open);
    assert Mirror(t) == [] && HeldFrames(t) == s.adapter.gate.frames;
    assert s.hydration + Mirror(t) == s.hydration;
    assert Forwarded(t) == Replayed(s.adapter.gate.frames, s.snapshot);
    OpenedStream(t);
  }

  lemma DataKeepsStream(s: System, chunk: seq<Byte>)
    requires Inv(s) && Enabled(s, Data(chunk)) && s.adapter.gate.Open?
    ensures StreamInv(Next(s, Data(chunk)))
  {
    var t := Next(s, Data(chunk));
    hide ClosedInv, PhaseInv, Last;
    assert HeldFrames(s) == [] && Mirror(t) == Mirror(s);
    assert Forwarded(t) == Forwarded(s) + chunk;
    FromSplits(s.received, chunk, Covered(s.snapshot, s.base));
  }

  lemma StreamMovesKeepStream(s: System, step: Step)
    requires Inv(s) && Enabled(s, step) && s.adapter.gate.Open?
    requires step.StreamMirror? || step.StreamSend?
    ensures StreamInv(Next(s, step))
  {
    var t := Next(s, step);
    assert HeldFrames(s) == [];
    hide ClosedInv, PhaseInv, Last, Covered, Appended;
    if step.StreamMirror? {
      assert Mirror(t) == Mirror(s) + s.stream.chunk;
      MirrorGrows(s, t, s.stream.chunk);
    } else {
      assert Mirror(t) == Mirror(s);
    }
    SameForwarded(s, t);
  }

  lemma StepKeepsStream(s: System, step: Step)
    requires Inv(s) && Enabled(s, step)
    ensures StreamInv(Next(s, step))
  {
    if step.DrainNext? {
      DrainNextKeepsStream(s);
    } else if step.DrainSend? {
      DrainSendKeepsStream(s);
    } else if step.Open? {
      OpenStartsTheStream(s);
    } else if s.adapter.gate.Open? && step.Data? {
      DataKeepsStream(s, step.chunk);
    } else if s.adapter.gate.Open? && (step.StreamMirror? || step.StreamSend?) {
      StreamMovesKeepStream(s, step);
    } else {
      hide Last, Covered, Replayed;
    }
  }

  lemma StepKeepsInv(s: System, step: Step)
    requires Inv(s) && Enabled(s, step)
    ensures Inv(Next(s, step))
  {
    StepKeepsPhase(s, step);
    StepKeepsClosed(s, step);
    StepKeepsStream(s, step);
  }

  // --- undisturbed, the steps make up the methods --------------------------------------

  /** The steps are enabled one after another and end in `t`. */
  ghost predicate LeadsTo(s: System, steps: seq<Step>, t: System)
    decreases |steps|
  {
    if steps == [] then s == t else Enabled(s, steps[0]) && LeadsTo(Next(s, steps[0]), steps[1..], t)
  }

  lemma {:induction false} LeadsOn(s: System, first: seq<Step>, t: System, second: seq<Step>, u: System)
    requires LeadsTo(s, first, t) && LeadsTo(t, second, u)
    ensures LeadsTo(s, first + second, u)
    decreases |first|
  {
    hide Enabled, Next;
    if first == [] {
      assert first + second == second;
    } else {
      assert (first + second)[1..] == first[1..] + second;
      LeadsOn(Next(s, first[0]), first[1..], t, second, u);
    }
  }

  lemma OneStep(s: System, step: Step)
    requires Enabled(s, step)
    ensures LeadsTo(s, [step], Next(s, step))
  {
    hide Enabled, Next;
    assert [step][1..] == [];
    assert LeadsTo(Next(s, step), [], Next(s, step));
  }

  /** Mirroring and sending one after the other is ingesting. */
  lemma OneFrameDrained(s: System) returns (steps: seq<Step>, t: System)
    requires s.create.Draining? && s.create.held != []
    ensures LeadsTo(s, steps, t)
    ensures var kept := Kept(s.create.held[0], s.snapshot);
            t == s.(adapter := if kept.Some? then Ingested(s.adapter, kept.value) else s.adapter,
                    create := Draining(s.create.held[1..]))
  {
    hide Kept, Appended;
    t := Next(s, DrainNext);
    OneStep(s, DrainNext);
    steps := [DrainNext];
    if Kept(s.create.held[0], s.snapshot).Some? {
      OneStep(t, DrainSend);
      LeadsOn(s, [DrainNext], t, [DrainSend], Next(t, DrainSend));
      steps, t := [DrainNext] + [DrainSend], Next(t, DrainSend);
    }
  }

  lemma {:induction false} DrainingDrains(s: System) returns (steps: seq<Step>)
    requires s.create.Draining?
    ensures LeadsTo(s, steps, s.(adapter := Drained(s.adapter, s.create.held, s.snapshot), create := Draining([])))
    decreases |s.create.held|
  {
    hide Kept, Ingested;
    if s.create.held == [] {
      steps := [];
    } else {
      var first, t := OneFrameDrained(s);
      var rest := DrainingDrains(t);
      var end := t.(adapter := Drained(t.adapter, t.create.held, t.snapshot), create := Draining([]));
      LeadsOn(s, first, t, rest, end);
      steps := first + rest;
    }
  }

  /** What `open_gate` leaves when nothing comes between its steps. */
  function AfterOpenGate(s: System): System {
    var exited := HeldBy(s.adapter.gate).exited;
    s.(adapter := Opened(s.adapter, s.snapshot),
       create := Created,
       registrations := s.registrations + (if exited then 0 else 1),
       early := exited)
  }

  /** Opening, draining and an early teardown, step by step, are `open_gate` as a whole. */
  lemma OpenStepsAreOpenGate(s: System) returns (steps: seq<Step>)
    requires s.create.Hydrated?
    ensures LeadsTo(s, steps, AfterOpenGate(s))
  {
    hide Drained;
    var begun := Next(s, Step.Open);
    OneStep(s, Step.Open);
    var drain := DrainingDrains(begun);
    var drained := begun.(adapter := Drained(begun.adapter, begun.create.held, begun.snapshot),
                           create := Draining([]));
    LeadsOn(s, [Step.Open], begun, drain, drained);
    var finish := FinishOpening(drained);
    LeadsOn(s, [Step.Open] + drain, drained, finish, AfterOpenGate(s));
    steps := [Step.Open] + drain + finish;
  }

  lemma FinishOpening(s: System) returns (steps: seq<Step>)
    requires s.create == Draining([])
    ensures LeadsTo(s, steps, s.(adapter := if s.early then TornDown(s.adapter) else s.adapter, create := Created))
  {
    var t := Next(s, DrainNext);
    OneStep(s, DrainNext);
    steps := [DrainNext];
    if s.early {
      var u := Next(t, MarkEarly);
      OneStep(t, MarkEarly);
      OneStep(u, RemoveEarly);
      LeadsOn(t, [MarkEarly], u, [RemoveEarly], Next(u, RemoveEarly));
      LeadsOn(s, [DrainNext], t, [MarkEarly] + [RemoveEarly], Next(u, RemoveEarly));
      steps := [DrainNext] + ([MarkEarly] + [RemoveEarly]);
    }
  }

  /** The steps of one frame are `on_data` as a whole. */
  lemma DataStepsAreOnData(s: System, chunk: seq<Byte>) returns (steps: seq<Step>, t: System)
    requires s.stream.Listening? && LockFree(s)
    ensures LeadsTo(s, steps, t) && t.stream.Listening? && t.received == s.received + chunk
    ensures t.adapter == Received(s.adapter, s.base + |s.received| + |chunk|, chunk)
  {
    hide Appended, Covered;
    OneStep(s, Data(chunk));
    steps, t := [Data(chunk)], Next(s, Data(chunk));
    if s.adapter.gate.Open? {
      var u := Next(t, StreamMirror);
      OneStep(t, StreamMirror);
      OneStep(u, StreamSend);
      LeadsOn(t, [StreamMirror], u, [StreamSend], Next(u, StreamSend));
      LeadsOn(s, steps, t, [StreamMirror] + [StreamSend], Next(u, StreamSend));
      steps, t := steps + ([StreamMirror] + [StreamSend]), Next(u, StreamSend);
    }
  }

  /** The steps of an exit are `on_exit` as a whole. */
  lemma ExitStepsAreOnExit(s: System) returns (steps: seq<Step>, t: System)
    requires s.stream.Listening? && LockFree(s)
    ensures LeadsTo(s, steps, t) && t.stream.Gone? && t.exitDelivered
    ensures t.adapter == ExitReceived(s.adapter)
  {
    OneStep(s, Exit);
    steps, t := [Exit], Next(s, Exit);
    if s.adapter.gate.Open? {
      var u := Next(t, MarkExit);
      OneStep(t, MarkExit);
      OneStep(u, RemoveExit);
      LeadsOn(t, [MarkExit], u, [RemoveExit], Next(u, RemoveExit));
      LeadsOn(s, steps, t, [MarkExit] + [RemoveExit], Next(u, RemoveExit));
      steps, t := steps + ([MarkExit] + [RemoveExit]), Next(u, RemoveExit);
    }
  }

  // --- runs ----------------------------------------------------------------------------

  ghost predicate IsRun(base: nat, states: seq<System>, steps: seq<Step>) {
    && |states| == |steps| + 1
    && states[0] == Initial(base)
    && forall i :: 0 <= i < |steps| ==> Enabled(states[i], steps[i]) && states[i + 1] == Next(states[i], steps[i])
  }

  lemma {:induction false} RunKeepsInv(base: nat, states: seq<System>, steps: seq<Step>, i: nat)
    requires IsRun(base, states, steps) && i < |states|
    ensures Inv(states[i]) && states[i].base == base
  {
    if i == 0 {
      assert Inv(Initial(base));
    } else {
      hide Inv;
      RunKeepsInv(base, states, steps, i - 1);
      StepKeepsInv(states[i - 1], steps[i - 1]);
    }
  }

  // --- what every run guarantees -------------------------------------------------------

  predicate NothingInTransit(s: System) {
    && LockFree(s)
    && !s.stream.Mirroring? && !s.stream.Sending?
  }

  /**
    At every moment the sink has seen a prefix of the received stream from the snapshot on:
    no gap, duplicate or reordering. With nothing in transit it has seen all of it, and
    that is so exactly when no frame past the gate began below the snapshot.
   */
  lemma SinkSeesTheStreamFromTheSnapshot(base: nat, states: seq<System>, steps: seq<Step>, i: nat)
    requires IsRun(base, states, steps) && i < |states| && states[i].adapter.gate.Open?
    ensures var s := states[i];
            && Expected(s) == From(s.received, Covered(s.snapshot, base))
            && (!s.lateBelow ==> s.adapter.output <= Expected(s))
            && (NothingInTransit(s) ==> (s.adapter.output == Expected(s) <==> !s.lateBelow))
  {
    hide IsRun;
    RunKeepsInv(base, states, steps, i);
    var s := states[i];
    hide ClosedInv, PhaseInv, Expected, Covered, Last;
    assert s.adapter.output <= Mirror(s) <= Forwarded(s);
    if NothingInTransit(s) {
      assert Forwarded(s) == s.adapter.output;
    }
  }

  ghost predicate Reachable(base: nat, t: System) {
    exists states, steps :: IsRun(base, states, steps) && states[|steps|] == t
  }

  lemma OneMoreStep(base: nat, s: System, step: Step) returns (t: System)
    requires Reachable(base, s) && Enabled(s, step)
    ensures t == Next(s, step) && Reachable(base, t)
  {
    hide Next;
    t := Next(s, step);
    var states, steps :| IsRun(base, states, steps) && states[|steps|] == s;
    assert IsRun(base, states + [t], steps + [step]) && (states + [t])[|steps + [step]|] == t;
  }

  /** A pane can be created from a two-byte snapshot before any frame arrives. */
  lemma CreatedBeforeAnyFrame() returns (t: System)
    ensures Reachable(0, t) && t.base == 0 && t.snapshot == Some(2) && t.received == []
    ensures t.create.Created? && t.stream.Listening? && t.adapter.gate.Open? && t.adapter.output == []
  {
    assert IsRun(0, [Initial(0)], []) && [Initial(0)][0] == Initial(0);
    t := Initial(0);
    assert Reachable(0, t);
    hide IsRun, Reachable, Appended;
    t := OneMoreStep(0, t, Reply(Some(2), [7, 8]));
    t := OneMoreStep(0, t, Hydrate(false));
    t := OneMoreStep(0, t, Step.Open);
    t := OneMoreStep(0, t, DrainNext);
  }

  /** A reachable state in which a frame past the gate repeated bytes the snapshot already holds. */
  lemma LateFrameBelowTheSnapshotIsRepeated() returns (t: System)
    ensures Reachable(0, t)
    ensures t.snapshot == Some(2) && t.received == [7, 8] && t.adapter.output == [7, 8]
  {
    t := CreatedBeforeAnyFrame();
    hide IsRun, Reachable, Appended, Covered;
    t := OneMoreStep(0, t, Data([7, 8]));
    t := OneMoreStep(0, t, StreamMirror);
    t := OneMoreStep(0, t, StreamSend);
  }

  /** The mirror is the end of the hydration text followed by everything sent, however chunked. */
  lemma MirrorShowsTheEnd(base: nat, states: seq<System>, steps: seq<Step>, i: nat)
    requires IsRun(base, states, steps) && i < |states|
    requires states[i].adapter.gate.Open? && NothingInTransit(states[i])
    ensures states[i].adapter.mirror.bytes
            == Last(states[i].hydration + states[i].adapter.output, MAX_SCROLLBACK_BYTES)
  {
    hide IsRun;
    RunKeepsInv(base, states, steps, i);
    hide Last, Expected, ClosedInv, PhaseInv;
    assert Mirror(states[i]) == states[i].adapter.output;
  }

  /** Once both tasks are done with the pane, it is registered exactly if no exit was delivered. */
  lemma RegisteredIffAlive(base: nat, states: seq<System>, steps: seq<Step>, i: nat)
    requires IsRun(base, states, steps) && i < |states|
    requires states[i].create.Created? && (states[i].stream.Listening? || states[i].stream.Gone?)
    ensures var s := states[i];
            && (s.adapter.registered <==> !s.exitDelivered)
            && (s.adapter.readerExited <==> s.exitDelivered)
            && (!s.exitDelivered ==> s.registrations == 1)
            && s.registrations <= 1
  {
    hide IsRun;
    RunKeepsInv(base, states, steps, i);
    hide StreamInv, ClosedInv;
  }

  /** A pane is never marked exited before its exit was delivered. */
  lemma ListeningIsNeverMarked(base: nat, states: seq<System>, steps: seq<Step>, i: nat)
    requires IsRun(base, states, steps) && i < |states|
    ensures states[i].adapter.readerExited ==> states[i].exitDelivered && !states[i].stream.Listening?
  {
    hide IsRun;
    RunKeepsInv(base, states, steps, i);
    hide StreamInv;
  }

  /** A create that failed never registered the pane. */
  lemma FailedCreateRegistersNothing(base: nat, states: seq<System>, steps: seq<Step>, i: nat)
    requires IsRun(base, states, steps) && i < |states| && states[i].create.Failed?
    ensures !states[i].adapter.registered && states[i].registrations == 0 && states[i].adapter.output == []
  {
    hide IsRun;
    RunKeepsInv(base, states, steps, i);
  }

  /** An exit that overtook the reply is honoured only after everything received was forwarded. */
  lemma EarlyExitReplaysFirst(base: nat, states: seq<System>, steps: seq<Step>, i: nat)
    requires IsRun(base, states, steps) && i < |states|
    requires states[i].early && (states[i].create.Marking? || states[i].create.Removing? || states[i].create.Created?)
    ensures var s := states[i];
            && !s.adapter.registered && s.registrations == 0
            && s.adapter.output == From(s.received, Covered(s.snapshot, base))
  {
    hide IsRun;
    RunKeepsInv(base, states, steps, i);
    var s := states[i];
    hide ClosedInv, Covered, Last;
    assert Forwarded(s) == s.adapter.output;
  }

  // --- progress ------------------------------------------------------------------------

  predicate IsCreateStep(step: Step) {
    step.Reply? || step.ReplyFailed? || step.Hydrate? || step.Open? || step.DrainNext? || step.DrainSend?
    || step.MarkEarly? || step.RemoveEarly?
  }

  predicate IsStreamStep(step: Step) {
    step.StreamMirror? || step.StreamSend? || step.MarkExit? || step.RemoveExit?
  }

  /** A bound on the steps `create` has left. */
  function CreateLeft(s: System): nat {
    var held := 2 * |HeldBy(s.adapter.gate).frames|;
    match s.create
    case AwaitingReply => held + 6
    case Replied => held + 5
    case Hydrated => held + 4
    case Draining(frames) => 2 * |frames| + 3
    case DrainSending(_, frames) => 2 * |frames| + 4
    case Marking => 2
    case Removing => 1
    case Created => 0
    case Failed => 0
  }

  /** And those the stream task needs before it listens again or is gone. */
  function StreamLeft(s: System): nat {
    match s.stream
    case Listening => 0
    case Mirroring(_) => 2
    case Sending(_) => 1
    case ExitMarking => 2
    case ExitRemoving => 1
    case Gone => 0
  }

  /**
    Neither task is ever stuck: until `create` has created or failed it has a step of its own,
    and so has the stream task inside a frame or an exit.
   */
  lemma NeitherTaskIsStuck(s: System) returns (create: Step, stream: Step)
    ensures s.create.Created? || s.create.Failed? || (IsCreateStep(create) && Enabled(s, create))
    ensures s.stream.Listening? || s.stream.Gone? || (IsStreamStep(stream) && Enabled(s, stream))
  {
    create := match s.create
      case AwaitingReply => ReplyFailed
      case Replied => Hydrate(false)
      case Hydrated => Step.Open
      case Draining(_) => DrainNext
      case DrainSending(_, _) => DrainSend
      case Marking => MarkEarly
      case _ => RemoveEarly;
    stream := match s.stream
      case Mirroring(_) => StreamMirror
      case Sending(_) => StreamSend
      case ExitMarking => MarkExit
      case _ => RemoveExit;
  }

  /** A failed reply ends `create` and touches nothing else; no step of it follows. */
  lemma FailedReplyEndsCreate(s: System, step: Step)
    ensures Enabled(s, ReplyFailed) ==> Next(s, ReplyFailed) == s.(create := Failed)
    ensures s.create.Failed? && Enabled(s, step) ==> !IsCreateStep(step) && Next(s, step).create.Failed?
  {
    hide AfterOpen, AfterDrainNext, Mirrored, Sent;
  }

  /** Every step of `create` leaves it fewer, and the stream task as many. */
  lemma CreateStepsFinish(s: System, step: Step)
    requires Enabled(s, step) && IsCreateStep(step)
    ensures CreateLeft(Next(s, step)) < CreateLeft(s)
    ensures Next(s, step).stream == s.stream
  {
    hide Appended, Kept;
    match step {
      case DrainNext => hide HeldBy;
      case Open =>
      case _ => hide Kept;
    }
  }

  /** Every step of the stream task inside a frame or an exit leaves it fewer, and `create` as many. */
  lemma StreamStepsFinish(s: System, step: Step)
    requires Enabled(s, step) && IsStreamStep(step)
    ensures StreamLeft(Next(s, step)) < StreamLeft(s)
    ensures CreateLeft(Next(s, step)) == CreateLeft(s) && Next(s, step).create == s.create
  {
    hide AfterOpen, AfterDrainNext, AfterData, Appended;
  }
}
