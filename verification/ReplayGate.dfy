/**
  The create-time replay gate: frames that land while `create` is in flight are buffered,
  then replayed from the snapshot's sequence number on.
 */
module ReplayGate {
  import opened Bytes
  import opened Integers
  import opened Options
  import opened Scrollback

  /** `upTo` counts the session's bytes up to and including this frame. */
  datatype Frame = Frame(upTo: nat, data: seq<Byte>)

  function StartOf(frame: Frame): nat {
    if frame.upTo < |frame.data| then 0 else frame.upTo - |frame.data|
  }

  /** What a buffered frame still contributes past the snapshot; `None` when it is dropped. */
  function Kept(frame: Frame, snapshot: Option<nat>): Option<seq<Byte>> {
    match snapshot
    case None => Some(frame.data)
    case Some(sequence) =>
      if frame.upTo <= sequence then None
      else if StartOf(frame) < sequence then
        Some(frame.data[Min(sequence - StartOf(frame), |frame.data|)..])
      else Some(frame.data)
  }

  function KeptBytes(frame: Frame, snapshot: Option<nat>): seq<Byte> {
    if Kept(frame, snapshot).Some? then Kept(frame, snapshot).value else []
  }

  function Replayed(frames: seq<Frame>, snapshot: Option<nat>): seq<Byte> {
    if frames == [] then [] else KeptBytes(frames[0], snapshot) + Replayed(frames[1..], snapshot)
  }

  function Payload(frames: seq<Frame>): seq<Byte> {
    if frames == [] then [] else frames[0].data + Payload(frames[1..])
  }

  /** The frames carry on from byte `start` of the session, one right after the other. */
  ghost predicate Contiguous(frames: seq<Frame>, start: nat) {
    frames == [] || (frames[0].upTo == start + |frames[0].data| && Contiguous(frames[1..], frames[0].upTo))
  }

  /** `s` without its first `n` elements. */
  function From(s: seq<Byte>, n: nat): seq<Byte> {
    if |s| <= n then [] else s[n..]
  }

  /** How many of the bytes from `start` on the snapshot already holds. */
  function Covered(snapshot: Option<nat>, start: nat): nat {
    if snapshot.Some? && start < snapshot.value then snapshot.value - start else 0
  }

  /** A held frame, even one that claims fewer bytes than it has, loses what the snapshot covers. */
  lemma HeldFrameIsTrimmed(frame: Frame, snapshot: Option<nat>)
    ensures snapshot.Some? && frame.upTo <= snapshot.value <==> Kept(frame, snapshot).None?
    ensures snapshot == None ==> KeptBytes(frame, snapshot) == frame.data
    ensures snapshot.Some? && |frame.data| <= frame.upTo ==>
              KeptBytes(frame, snapshot) == From(frame.data, Covered(snapshot, frame.upTo - |frame.data|))
    ensures snapshot.Some? && snapshot.value < frame.upTo < |frame.data| ==>
              KeptBytes(frame, snapshot) == frame.data[snapshot.value..]
  {
  }

  lemma FromSplits(a: seq<Byte>, b: seq<Byte>, n: nat)
    ensures From(a + b, n) == From(a, n) + From(b, if n <= |a| then 0 else n - |a|)
  {
  }

  /** Trimming frame by frame drops exactly the bytes the snapshot holds, wherever frames end. */
  lemma {:induction false} ReplayStartsAtTheSnapshot(frames: seq<Frame>, snapshot: Option<nat>, start: nat)
    requires Contiguous(frames, start)
    ensures Replayed(frames, snapshot) == From(Payload(frames), Covered(snapshot, start))
  {
    if frames == [] {
    } else {
      ReplayStartsAtTheSnapshot(frames[1..], snapshot, frames[0].upTo);
      assert KeptBytes(frames[0], snapshot) == From(frames[0].data, Covered(snapshot, start));
      hide Kept, KeptBytes;
      FromSplits(frames[0].data, Payload(frames[1..]), Covered(snapshot, start));
    }
  }

  lemma {:induction false} PayloadAppend(frames: seq<Frame>, frame: Frame)
    ensures Payload(frames + [frame]) == Payload(frames) + frame.data
  {
    if frames == [] {
      assert [frame][1..] == [];
    } else {
      assert (frames + [frame])[1..] == frames[1..] + [frame];
      PayloadAppend(frames[1..], frame);
    }
  }

  lemma {:induction false} ContiguousAppend(frames: seq<Frame>, frame: Frame, start: nat)
    requires Contiguous(frames, start) && frame.upTo == start + |Payload(frames)| + |frame.data|
    ensures Contiguous(frames + [frame], start)
  {
    if frames == [] {
    } else {
      assert (frames + [frame])[1..] == frames[1..] + [frame];
      ContiguousAppend(frames[1..], frame, frames[0].upTo);
    }
  }

  datatype Gate = Closed(frames: seq<Frame>, exited: bool) | Open

  datatype Adapter = Adapter(gate: Gate, mirror: Ring, output: seq<Byte>, registered: bool, readerExited: bool)

  function Ingested(a: Adapter, data: seq<Byte>): Adapter {
    a.(mirror := Appended(a.mirror, data, MAX_SCROLLBACK_BYTES), output := a.output + data)
  }

  function Drained(a: Adapter, frames: seq<Frame>, snapshot: Option<nat>): Adapter
    decreases |frames|
  {
    if frames == [] then a
    else
      var kept := Kept(frames[0], snapshot);
      Drained(if kept.Some? then Ingested(a, kept.value) else a, frames[1..], snapshot)
  }

  function TornDown(a: Adapter): Adapter {
    a.(readerExited := true, registered := false)
  }

  datatype Held = Held(frames: seq<Frame>, exited: bool)

  function HeldBy(gate: Gate): Held {
    match gate
    case Closed(frames, exited) => Held(frames, exited)
    case Open => Held([], false)
  }

  function Opened(a: Adapter, snapshot: Option<nat>): Adapter {
    var Held(frames, exited) := HeldBy(a.gate);
    var replayed := Drained(a.(gate := Open, registered := a.registered || !exited), frames, snapshot);
    if exited then TornDown(replayed) else replayed
  }

  /** An open gate holds nothing: opening it again forwards nothing and tears nothing down. */
  lemma OpeningAgain(a: Adapter, snapshot: Option<nat>)
    requires a.gate.Open?
    ensures Opened(a, snapshot) == a.(registered := true)
  {
  }

  /** A frame that arrives: held while the gate is closed, forwarded whole afterwards. */
  function Received(a: Adapter, sequence: nat, data: seq<Byte>): Adapter {
    match a.gate
    case Closed(frames, exited) => a.(gate := Closed(frames + [Frame(sequence, data)], exited))
    case Open => Ingested(a, data)
  }

  /** An exit that arrives: recorded while the gate is closed, a teardown afterwards. */
  function ExitReceived(a: Adapter): Adapter {
    match a.gate
    case Closed(frames, _) => a.(gate := Closed(frames, true))
    case Open => TornDown(a)
  }

  lemma KeptIsIngested(a: Adapter, frame: Frame, snapshot: Option<nat>, history: seq<Byte>)
    requires a.mirror.bytes == Last(history, MAX_SCROLLBACK_BYTES)
    ensures var bytes := KeptBytes(frame, snapshot);
            var next := if Kept(frame, snapshot).Some? then Ingested(a, bytes) else a;
            && next.output == a.output + bytes
            && next.mirror.bytes == Last(history + bytes, MAX_SCROLLBACK_BYTES)
            && next.gate == a.gate && next.registered == a.registered && next.readerExited == a.readerExited
  {
    hide Last, Kept;
    var bytes := KeptBytes(frame, snapshot);
    AppendedShowsTheEnd(a.mirror, history, bytes, MAX_SCROLLBACK_BYTES);
    hide Appended;
    if Kept(frame, snapshot).None? {
      assert history + bytes == history;
    }
  }

  /** Draining forwards exactly the replayed bytes and touches neither gate nor registry. */
  lemma {:induction false} DrainedForwards(a: Adapter, frames: seq<Frame>, snapshot: Option<nat>, history: seq<Byte>)
    requires a.mirror.bytes == Last(history, MAX_SCROLLBACK_BYTES)
    ensures Drained(a, frames, snapshot).output == a.output + Replayed(frames, snapshot)
    ensures Drained(a, frames, snapshot).mirror.bytes
            == Last(history + Replayed(frames, snapshot), MAX_SCROLLBACK_BYTES)
    ensures var d := Drained(a, frames, snapshot);
            d.gate == a.gate && d.registered == a.registered && d.readerExited == a.readerExited
    decreases |frames|
  {
    hide Last, Kept;
    if frames == [] {
      assert history + Replayed(frames, snapshot) == history;
    } else {
      var bytes := KeptBytes(frames[0], snapshot);
      var next := if Kept(frames[0], snapshot).Some? then Ingested(a, bytes) else a;
      KeptIsIngested(a, frames[0], snapshot, history);
      hide Appended, Ingested, KeptBytes;
      DrainedForwards(next, frames[1..], snapshot, history + bytes);
      assert history + Replayed(frames, snapshot) == (history + bytes) + Replayed(frames[1..], snapshot);
      assert a.output + Replayed(frames, snapshot) == (a.output + bytes) + Replayed(frames[1..], snapshot);
    }
  }

  class DaemonSinkAdapter {
    var gate: Gate
    var scrollback: ScrollbackRing
    ghost var output: seq<Byte>
    var registered: bool
    var readerExited: bool

    ghost function View(): Adapter
      reads this, scrollback
    {
      Adapter(gate, scrollback.View(), output, registered, readerExited)
    }

    constructor ()
      ensures View() == Adapter(Closed([], false), Ring([], false), [], false, false)
      ensures fresh(scrollback)
    {
      gate, output, registered, readerExited := Closed([], false), [], false, false;
      scrollback := new ScrollbackRing();
    }

    /** Mirror a chunk, then hand it to the transport. */
    method Ingest(data: seq<Byte>)
      modifies this`output, scrollback
      ensures View() == Ingested(old(View()), data)
    {
      scrollback.Append(data, MAX_SCROLLBACK_BYTES);
      output := output + data;
    }

    method OnData(sequence: nat, data: seq<Byte>)
      modifies this`gate, this`output, scrollback
      ensures View() == Received(old(View()), sequence, data)
    {
      if gate.Closed? {
        gate := Closed(gate.frames + [Frame(sequence, data)], gate.exited);
        return;
      }
      Ingest(data);
    }

    method Teardown()
      modifies this`registered, this`readerExited
      ensures View() == TornDown(old(View()))
    {
      readerExited := true;
      registered := false;
    }

    method OnExit()
      modifies this`gate, this`registered, this`readerExited
      ensures View() == ExitReceived(old(View()))
    {
      if gate.Closed? {
        gate := gate.(exited := true);
        return;
      }
      Teardown();
    }

    /** Open the gate: register unless the child already exited, then replay what was held. */
    method OpenGate(snapshot: Option<nat>) returns (exited: bool)
      modifies this, scrollback
      ensures scrollback == old(scrollback)
      ensures View() == Opened(old(View()), snapshot)
      ensures exited <==> old(gate).Closed? && old(gate).exited
    {
      var frames: seq<Frame> := [];
      exited := false;
      if gate.Closed? {
        frames, exited := gate.frames, gate.exited;
      }
      gate := Open;
      if !exited {
        registered := true;
      }
      ghost var started := View();
      var i := 0;
      while i < |frames|
        invariant i <= |frames|
        invariant scrollback == old(scrollback)
        invariant Drained(View(), frames[i..], snapshot) == Drained(started, frames, snapshot)
      {
        var frame := frames[i];
        assert frames[i..][0] == frame && frames[i..][1..] == frames[i + 1..];
        match snapshot {
          case Some(sequence) =>
            var start := StartOf(frame);
            if frame.upTo <= sequence {
              i := i + 1;
              continue;
            }
            if start < sequence {
              Ingest(frame.data[Min(sequence - start, |frame.data|)..]);
            } else {
              Ingest(frame.data);
            }
          case None =>
            Ingest(frame.data);
        }
        i := i + 1;
      }
      assert frames[i..] == [];
      if exited {
        Teardown();
      }
    }
  }
}
