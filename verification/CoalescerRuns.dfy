/** Every interleaving of pushes, `close`, spurious wakeups, window timeouts and the one flusher. */
module CoalescerRuns {
  import opened Bytes
  import opened OutputCoalescer
  import Utf8

  datatype FlusherPc =
    | Checking                                   // awake, about to look at the state
    | AsleepIdle                                 // waiting for bytes or `closed`
    | AsleepWindow                               // waiting out the flush window
    | Emitting(start: nat, chunk: seq<Byte>, last: bool)   // calling the sink, off the lock
    | Exited

  /** A chunk the sink received and where in the accepted stream it was taken from. */
  datatype Slice = Slice(start: nat, chunk: seq<Byte>)

  /** `accepted` and `emitted` are history: every byte a push took, and what the sink was given. */
  datatype System = System(state: Guarded, flusher: FlusherPc, accepted: seq<Byte>, emitted: seq<Slice>)

  const INITIAL := System(Guarded([], false, false, false), Checking, [], [])

  datatype Step = Push(data: seq<Byte>) | Close | Wake | Check(elapsed: bool) | Delivered

  predicate Enabled(s: System, step: Step) {
    match step
    case Push(_) => true
    case Close => true
    case Wake => s.flusher.AsleepIdle? || s.flusher.AsleepWindow?
    case Check(_) => s.flusher.Checking?
    case Delivered => s.flusher.Emitting?
  }

  function Notify(pc: FlusherPc): FlusherPc {
    if pc.AsleepIdle? || pc.AsleepWindow? then Checking else pc
  }

  /** Where the pending bytes begin in the accepted stream. */
  function PendingStart(s: System): int {
    |s.accepted| - |s.state.pending|
  }

  function AfterCheck(s: System, elapsed: bool): System
    requires PendingStart(s) >= 0
  {
    var (state, verdict) := Flush(s.state, elapsed);
    match verdict
    case SleepIdle => s.(flusher := AsleepIdle)
    case SleepWindow => s.(flusher := AsleepWindow)
    case Emit(chunk) => s.(state := state, flusher := Emitting(PendingStart(s), chunk, false))
    case Finish(tail) =>
      s.(state := state, flusher := if tail == [] then Exited else Emitting(PendingStart(s), tail, true))
  }

  function Next(s: System, step: Step): System
    requires Enabled(s, step) && PendingStart(s) >= 0
  {
    match step
    case Push(data) =>
      var taken := if s.state.closed then [] else data;
      s.(state := Pushed(s.state, data), accepted := s.accepted + taken,
         flusher := if taken == [] then s.flusher else Notify(s.flusher))
    case Close => s.(state := s.state.(closed := true), flusher := Notify(s.flusher))
    case Wake => s.(flusher := Checking)
    case Check(elapsed) => AfterCheck(s, elapsed)
    case Delivered =>
      s.(emitted := s.emitted + [Slice(s.flusher.start, s.flusher.chunk)],
         flusher := if s.flusher.last then Exited else Checking)
  }

  /** Everything taken out of the buffer so far, in order: delivered, then in flight. */
  function Taken(s: System): seq<Slice> {
    s.emitted + if s.flusher.Emitting? then [Slice(s.flusher.start, s.flusher.chunk)] else []
  }

  function End(slice: Slice): nat {
    slice.start + |slice.chunk|
  }

  ghost predicate IsSlice(stream: seq<Byte>, slice: Slice) {
    slice.chunk != [] && End(slice) <= |stream| && slice.chunk == stream[slice.start..End(slice)]
  }

  /** Non-empty slices of `stream`, one after the other without overlap, the last ending by `limit`. */
  ghost predicate Chain(stream: seq<Byte>, slices: seq<Slice>, limit: int) {
    && (forall i :: 0 <= i < |slices| ==> IsSlice(stream, slices[i]) && End(slices[i]) <= limit)
    && (forall i, j :: 0 <= i < j < |slices| ==> End(slices[i]) <= slices[j].start)
  }

  function Chunks(slices: seq<Slice>): seq<seq<Byte>> {
    seq(|slices|, i requires 0 <= i < |slices| => slices[i].chunk)
  }

  ghost predicate Inv(s: System) {
    && 0 <= PendingStart(s)
    && s.state.pending == s.accepted[PendingStart(s)..]
    && |s.state.pending| <= MAX_PENDING_BYTES
    && Chain(s.accepted, Taken(s), PendingStart(s))
    && (!s.state.truncated ==> Flatten(Chunks(Taken(s))) + s.state.pending == s.accepted)
    && (s.state.truncated ==> |Flatten(Chunks(Taken(s)))| + |s.state.pending| < |s.accepted|)
    && (s.state.pending != [] ==> s.state.timed)
    && (s.flusher.AsleepIdle? ==> s.state.pending == [] && !s.state.closed)
    && (s.flusher.AsleepWindow? ==> !s.state.closed && 0 < |s.state.pending| < OUTPUT_FLUSH_SIZE)
    && (s.flusher.Exited? || (s.flusher.Emitting? && s.flusher.last) ==>
          s.state.closed && s.state.pending == [])
  }

  lemma ChainGrows(stream: seq<Byte>, longer: seq<Byte>, slices: seq<Slice>, limit: int, later: int)
    requires Chain(stream, slices, limit) && stream <= longer && limit <= later
    ensures Chain(longer, slices, later)
  {
    forall i | 0 <= i < |slices|
      ensures IsSlice(longer, slices[i])
    {
      assert IsSlice(stream, slices[i]);
    }
  }

  lemma ChainExtends(stream: seq<Byte>, slices: seq<Slice>, limit: int, last: Slice)
    requires Chain(stream, slices, limit) && IsSlice(stream, last) && limit <= last.start
    ensures Chain(stream, slices + [last], End(last))
  {
    var longer := slices + [last];
    forall i | 0 <= i < |longer|
      ensures IsSlice(stream, longer[i]) && End(longer[i]) <= End(last)
    {
      assert i < |slices| ==> longer[i] == slices[i] && IsSlice(stream, slices[i]);
    }
    forall i, j | 0 <= i < j < |longer|
      ensures End(longer[i]) <= longer[j].start
    {
      assert IsSlice(stream, slices[i]);
    }
  }

  /** What an accepted push does: `cut` of the oldest pending bytes are given up. */
  ghost predicate PushEffect(s: System, t: System, data: seq<Byte>, cut: nat) {
    && t.accepted == s.accepted + data
    && Taken(t) == Taken(s)
    && PendingStart(t) == PendingStart(s) + cut
    && 0 <= PendingStart(t) <= |t.accepted|
    && t.state.pending == t.accepted[PendingStart(t)..]
    && |t.state.pending| <= MAX_PENDING_BYTES
    && t.state.timed
    && t.state.closed == s.state.closed
    && t.state.truncated == (s.state.truncated || cut > 0)
    && !t.flusher.AsleepIdle? && !t.flusher.AsleepWindow?
    && (t.flusher == s.flusher || t.flusher.Checking?)
  }

  lemma PushHasEffect(s: System, data: seq<Byte>)
    requires 0 <= PendingStart(s) && s.state.pending == s.accepted[PendingStart(s)..]
    requires data != [] && !s.state.closed
    ensures PushEffect(s, Next(s, Push(data)), data, Overflow(s.state.pending + data))
  {
    hide NextLead;
    var t, grown := Next(s, Push(data)), s.state.pending + data;
    var cut := Overflow(grown);
    assert grown == t.accepted[PendingStart(s)..];
    assert t.state.pending == grown[cut..];
    assert t.accepted[PendingStart(s)..][cut..] == t.accepted[PendingStart(s) + cut..];
  }

  lemma EffectKeepsInv(s: System, t: System, data: seq<Byte>, cut: nat)
    requires Inv(s) && PushEffect(s, t, data, cut) && !s.state.closed
    ensures Inv(t)
  {
    ChainGrows(s.accepted, t.accepted, Taken(s), PendingStart(s), PendingStart(t));
    EffectKeepsLoss(s, t, data, cut);
    hide Chain, Chunks;
  }

  lemma EffectKeepsLoss(s: System, t: System, data: seq<Byte>, cut: nat)
    requires Inv(s) && PushEffect(s, t, data, cut)
    ensures !t.state.truncated ==> Flatten(Chunks(Taken(t))) + t.state.pending == t.accepted
    ensures t.state.truncated ==> |Flatten(Chunks(Taken(t)))| + |t.state.pending| < |t.accepted|
  {
    hide Chain, Chunks, Flatten, Taken, PendingStart;
    var before := Flatten(Chunks(Taken(s)));
    if !t.state.truncated {
      NothingCut(s, t, data, cut);
      Regroup(before, s.state.pending, data);
    } else {
      AmountCut(s, t, data, cut);
      assert !s.state.truncated ==> |before + s.state.pending| == |s.accepted|;
    }
  }

  lemma Regroup(a: seq<Byte>, b: seq<Byte>, c: seq<Byte>)
    ensures a + (b + c) == (a + b) + c
  {
  }

  lemma NothingCut(s: System, t: System, data: seq<Byte>, cut: nat)
    requires 0 <= PendingStart(s) && s.state.pending == s.accepted[PendingStart(s)..]
    requires PushEffect(s, t, data, cut) && cut == 0
    ensures t.state.pending == s.state.pending + data
  {
  }

  lemma AmountCut(s: System, t: System, data: seq<Byte>, cut: nat)
    requires PushEffect(s, t, data, cut)
    ensures |t.accepted| - |t.state.pending| == |s.accepted| - |s.state.pending| + cut
  {
  }

  lemma IgnoredPush(s: System, data: seq<Byte>)
    requires PendingStart(s) >= 0 && (data == [] || s.state.closed)
    ensures Next(s, Push(data)) == s
  {
    assert s.accepted + [] == s.accepted;
  }

  lemma PushKeepsInv(s: System, data: seq<Byte>)
    requires Inv(s)
    ensures Inv(Next(s, Push(data)))
  {
    if data != [] && !s.state.closed {
      PushHasEffect(s, data);
      EffectKeepsInv(s, Next(s, Push(data)), data, Overflow(s.state.pending + data));
    } else {
      IgnoredPush(s, data);
    }
    hide *;
  }

  /** Taking the whole buffer appends one slice that reaches the end of the accepted bytes. */
  lemma TakeAppendsSlice(s: System, elapsed: bool)
    requires Inv(s) && Enabled(s, Check(elapsed)) && Next(s, Check(elapsed)).flusher.Emitting?
    ensures var t, last := Next(s, Check(elapsed)), Slice(PendingStart(s), s.state.pending);
            && Taken(t) == Taken(s) + [last]
            && t.accepted == s.accepted
            && t.state.pending == []
            && IsSlice(s.accepted, last) && End(last) == |s.accepted|
            && (t.flusher.last ==> t.state.closed)
            && t.state.truncated == s.state.truncated
  {
    hide Chain;
  }

  lemma TakeKeepsInv(s: System, elapsed: bool)
    requires Inv(s) && Enabled(s, Check(elapsed)) && Next(s, Check(elapsed)).flusher.Emitting?
    ensures Inv(Next(s, Check(elapsed)))
  {
    var t, last := Next(s, Check(elapsed)), Slice(PendingStart(s), s.state.pending);
    TakeAppendsSlice(s, elapsed);
    ChainExtends(s.accepted, Taken(s), PendingStart(s), last);
    hide Chain;
    assert Chunks(Taken(t)) == Chunks(Taken(s)) + [last.chunk];
    FlattenSnoc(Chunks(Taken(s)), last.chunk);
  }

  lemma CheckKeepsInv(s: System, elapsed: bool)
    requires Inv(s) && Enabled(s, Check(elapsed))
    ensures Inv(Next(s, Check(elapsed)))
  {
    hide Chain, Chunks, Flatten;
    if Next(s, Check(elapsed)).flusher.Emitting? {
      hide Inv;
      TakeKeepsInv(s, elapsed);
    } else {
      QuietCheckKeepsInv(s, elapsed);
    }
  }

  lemma QuietCheckKeepsInv(s: System, elapsed: bool)
    requires Inv(s) && Enabled(s, Check(elapsed)) && !Next(s, Check(elapsed)).flusher.Emitting?
    ensures Inv(Next(s, Check(elapsed)))
  {
    hide Chain, Chunks, Flatten;
    assert Taken(Next(s, Check(elapsed))) == Taken(s);
  }

  lemma StepKeepsInv(s: System, step: Step)
    requires Inv(s) && Enabled(s, step)
    ensures Inv(Next(s, step))
  {
    match step
    case Push(data) => PushKeepsInv(s, data);
    case Check(elapsed) => CheckKeepsInv(s, elapsed);
    case _ => assert Taken(Next(s, step)) == Taken(s);
  }

  /** `states` is what happens when `steps` are taken from the start, each when it can be. */
  ghost predicate IsRun(states: seq<System>, steps: seq<Step>) {
    && |states| == |steps| + 1
    && states[0] == INITIAL
    && forall i :: 0 <= i < |steps| ==>
         && Enabled(states[i], steps[i])
         && PendingStart(states[i]) >= 0
         && states[i + 1] == Next(states[i], steps[i])
  }

  lemma {:induction false} RunKeepsInv(states: seq<System>, steps: seq<Step>, i: nat)
    requires IsRun(states, steps) && i < |states|
    ensures Inv(states[i])
  {
    if i == 0 {
    } else {
      RunKeepsInv(states, steps, i - 1);
      StepKeepsInv(states[i - 1], steps[i - 1]);
    }
  }

  /** `PendingStart(s) >= 0` in `IsRun` never rules a step out. */
  lemma RunsNeverBlock(states: seq<System>, steps: seq<Step>, step: Step)
    requires IsRun(states, steps) && Enabled(states[|steps|], step)
    ensures PendingStart(states[|steps|]) >= 0
    ensures IsRun(states + [Next(states[|steps|], step)], steps + [step])
  {
    RunKeepsInv(states, steps, |steps|);
    assert PendingStart(states[|steps|]) >= 0;
    hide Inv, Next, Enabled, PendingStart;
    var longer, taken := states + [Next(states[|steps|], step)], steps + [step];
    forall i | 0 <= i < |taken|
      ensures Enabled(longer[i], taken[i]) && PendingStart(longer[i]) >= 0 && longer[i + 1] == Next(longer[i], taken[i])
    {
      assert longer[i] == states[i] && (i < |steps| ==> longer[i + 1] == states[i + 1] && taken[i] == steps[i]);
    }
  }

  // --- what every run guarantees -------------------------------------------------------

  /**
    The buffer is a bounded suffix of the accepted bytes; the sink got disjoint, increasing,
    non-empty slices of them, all from before the buffer.
   */
  lemma OutputIsSlicesInOrder(states: seq<System>, steps: seq<Step>, i: nat)
    requires IsRun(states, steps) && i < |states|
    ensures var s := states[i];
            && |s.state.pending| <= MAX_PENDING_BYTES
            && |s.state.pending| <= |s.accepted|
            && s.state.pending == s.accepted[|s.accepted| - |s.state.pending|..]
            && Chain(s.accepted, Taken(s), |s.accepted| - |s.state.pending|)
  {
    RunKeepsInv(states, steps, i);
  }

  /** Bytes were lost exactly if the cap was ever hit; otherwise nothing is missing anywhere. */
  lemma LosslessIffNeverTruncated(states: seq<System>, steps: seq<Step>, i: nat)
    requires IsRun(states, steps) && i < |states|
    ensures Flatten(Chunks(Taken(states[i]))) + states[i].state.pending == states[i].accepted
            <==> !states[i].state.truncated
  {
    RunKeepsInv(states, steps, i);
  }

  /** Once the flusher has exited nothing is pending, nothing is accepted and nothing emitted. */
  lemma {:induction false} ExitIsFinal(states: seq<System>, steps: seq<Step>, i: nat, j: nat)
    requires IsRun(states, steps) && i <= j < |states| && states[i].flusher.Exited?
    ensures states[j].flusher.Exited? && states[j].state.pending == []
    ensures states[j].accepted == states[i].accepted && states[j].emitted == states[i].emitted
  {
    hide Next, Chain, Chunks, Flatten, Taken;
    RunKeepsInv(states, steps, j);
    if i == j {
    } else {
      ExitIsFinal(states, steps, i, j - 1);
      RunKeepsInv(states, steps, j - 1);
      ExitedStays(states[j - 1], steps[j - 1]);
    }
  }

  /** A flusher that exited delivered every accepted byte, in order, unless the cap was hit. */
  lemma ExitedDeliveredEverything(states: seq<System>, steps: seq<Step>, i: nat)
    requires IsRun(states, steps) && i < |states| && states[i].flusher.Exited?
    ensures Flatten(Chunks(states[i].emitted)) == states[i].accepted <==> !states[i].state.truncated
  {
    RunKeepsInv(states, steps, i);
    hide IsRun, Chain, Chunks, Flatten;
    assert Taken(states[i]) == states[i].emitted;
    assert Flatten(Chunks(Taken(states[i]))) + [] == Flatten(Chunks(Taken(states[i])));
  }

  lemma ExitedStays(s: System, step: Step)
    requires Inv(s) && s.flusher.Exited? && Enabled(s, step)
    ensures var t := Next(s, step);
            t.flusher.Exited? && t.state.pending == [] && t.accepted == s.accepted && t.emitted == s.emitted
  {
    hide Chain, Chunks;
  }

  /** A push or a close is never held up; pushes are accepted whole until the close and not after it. */
  lemma PushesAreAcceptedUntilClose(s: System, data: seq<Byte>)
    requires Inv(s)
    ensures Enabled(s, Push(data)) && Enabled(s, Close)
    ensures var t := Next(s, Push(data));
            if s.state.closed then t == s
            else t.accepted == s.accepted + data && t.emitted == s.emitted && !t.state.closed
    ensures var t := Next(s, Close);
            && t.state == s.state.(closed := true) && t.accepted == s.accepted && t.emitted == s.emitted
            && !t.flusher.AsleepIdle? && !t.flusher.AsleepWindow?
  {
    if s.state.closed {
      IgnoredPush(s, data);
    }
  }

  /**
    The flusher never sleeps while there is something only it can do: idle it has nothing, and
    in the flush window it has something, but less than what makes it flush at once.
   */
  lemma FlusherIsWoken(states: seq<System>, steps: seq<Step>, i: nat)
    requires IsRun(states, steps) && i < |states|
    ensures states[i].flusher.AsleepIdle? ==> states[i].state.pending == [] && !states[i].state.closed
    ensures states[i].flusher.AsleepWindow? ==>
              !states[i].state.closed && 0 < |states[i].state.pending| < OUTPUT_FLUSH_SIZE
  {
    RunKeepsInv(states, steps, i);
  }

  /** How many steps a closed flusher is from its exit. */
  function StepsLeft(flusher: FlusherPc): nat {
    match flusher
    case Emitting(_, _, last) => if last then 1 else 3
    case Exited => 0
    case _ => 2
  }

  predicate IsFlusherStep(step: Step) {
    step.Check? || step.Delivered?
  }

  /** Once closed, the flusher has a step until it has exited, and takes three at the most. */
  lemma ClosedFlusherExits(states: seq<System>, steps: seq<Step>, step: Step)
    requires IsRun(states, steps) && states[|steps|].state.closed
    ensures var s := states[|steps|];
            && (!s.flusher.Exited? ==> exists own :: IsFlusherStep(own) && Enabled(s, own))
            && StepsLeft(s.flusher) <= 3 && (StepsLeft(s.flusher) == 0 <==> s.flusher.Exited?)
    ensures var s := states[|steps|];
            Enabled(s, step) && PendingStart(s) >= 0 ==>
              var t := Next(s, step);
              && t.state.closed
              && (if IsFlusherStep(step) then StepsLeft(t.flusher) < StepsLeft(s.flusher)
                  else t.flusher == s.flusher)
  {
    RunKeepsInv(states, steps, |steps|);
    var s := states[|steps|];
    var own := if s.flusher.Emitting? then Delivered else Check(true);
    assert !s.flusher.Exited? ==> IsFlusherStep(own) && Enabled(s, own);
    hide IsRun, Chain, Chunks, Flatten, Taken;
  }

  /**
    What an awake flusher does next: closed, it takes everything for its last emission or exits;
    open, it emits exactly the pending bytes when there are 64 KiB of them or the window is over,
    and otherwise leaves them and sleeps.
   */
  lemma AwakeFlusherDecides(s: System, elapsed: bool)
    requires Inv(s) && s.flusher.Checking?
    ensures var t, pending := Next(s, Check(elapsed)), s.state.pending;
            var takes := pending != [] && (s.state.closed || elapsed || |pending| >= 64 * 1024);
            && t.accepted == s.accepted && t.emitted == s.emitted && t.state.closed == s.state.closed
            && t.state.pending == (if takes then [] else pending) && t.state.truncated == s.state.truncated
            && t.state.timed == (s.state.timed && !takes && !s.state.closed)
            && t.flusher == if takes then Emitting(|s.accepted| - |pending|, pending, s.state.closed)
                            else if s.state.closed then Exited
                            else if pending == [] then AsleepIdle else AsleepWindow
  {
    hide Chain, Chunks, Flatten, Taken;
  }

  /** The steps are enabled one after another and end in `t`. */
  ghost predicate LeadsTo(s: System, steps: seq<Step>, t: System)
    decreases |steps|
  {
    if steps == [] then s == t
    else Enabled(s, steps[0]) && PendingStart(s) >= 0 && LeadsTo(Next(s, steps[0]), steps[1..], t)
  }

  /** A flusher not asleep for want of bytes, taking steps of its own with the window over. */
  predicate IsOwnStep(step: Step) {
    step == Check(true) || step == Delivered || step == Wake
  }

  lemma OneMore(s: System, step: Step, rest: seq<Step>, t: System)
    requires Enabled(s, step) && PendingStart(s) >= 0 && LeadsTo(Next(s, step), rest, t)
    ensures LeadsTo(s, [step] + rest, t)
  {
    hide Next, Enabled, PendingStart;
    assert ([step] + rest)[1..] == rest;
  }

  lemma NoSteps(s: System)
    ensures LeadsTo(s, [], s)
  {
  }

  /** What was pending, as the slice it is of the accepted stream. */
  function PendingSlice(s: System): seq<Slice>
    requires PendingStart(s) >= 0
  {
    if s.state.pending == [] then [] else [Slice(PendingStart(s), s.state.pending)]
  }

  /** Awake, it takes at most two steps to hand on everything pending. */
  lemma AwakeFlusherDrains(s: System) returns (own: seq<Step>, t: System)
    requires Inv(s) && s.flusher.Checking?
    ensures LeadsTo(s, own, t) && |own| <= 2 && forall step :: step in own ==> IsOwnStep(step)
    ensures t.accepted == s.accepted && t.state.pending == [] && !t.flusher.Emitting?
    ensures t.emitted == s.emitted + PendingSlice(s)
  {
    AwakeFlusherDecides(s, true);
    hide Inv, Next, LeadsTo;
    var u := Next(s, Check(true));
    if s.state.pending == [] {
      own, t := [Check(true)], u;
      NoSteps(u);
      OneMore(s, Check(true), [], u);
      assert [Check(true)] + [] == [Check(true)];
    } else {
      DeliveredHandsOn(u);
      t := Next(u, Delivered);
      NoSteps(t);
      OneMore(u, Delivered, [], t);
      OneMore(s, Check(true), [Delivered] + [], t);
      own := [Check(true)] + ([Delivered] + []);
    }
  }

  lemma WakingChecks(s: System)
    requires (s.flusher.AsleepIdle? || s.flusher.AsleepWindow?) && PendingStart(s) >= 0
    ensures Next(s, Wake) == s.(flusher := Checking)
  {
  }

  lemma DeliveredHandsOn(s: System)
    requires s.flusher.Emitting? && PendingStart(s) >= 0
    ensures Next(s, Delivered)
            == s.(emitted := s.emitted + [Slice(s.flusher.start, s.flusher.chunk)],
                  flusher := if s.flusher.last then Exited else Checking)
  {
  }

  /**
    From every reachable state at most three steps of the flusher's own, the window being over,
    hand on everything accepted so far that the cap did not cost: nothing is pending or in
    flight, and what was so has been emitted, in order.
   */
  lemma FlusherDrains(states: seq<System>, steps: seq<Step>) returns (own: seq<Step>, t: System)
    requires IsRun(states, steps)
    ensures PendingStart(states[|steps|]) >= 0
    ensures LeadsTo(states[|steps|], own, t) && |own| <= 3 && forall step :: step in own ==> IsOwnStep(step)
    ensures t.accepted == states[|steps|].accepted && t.state.pending == [] && !t.flusher.Emitting?
    ensures t.emitted == Taken(states[|steps|]) + PendingSlice(states[|steps|])
  {
    RunKeepsInv(states, steps, |steps|);
    own, t := ReachableFlusherDrains(states[|steps|]);
  }

  lemma ReachableFlusherDrains(s: System) returns (own: seq<Step>, t: System)
    requires Inv(s)
    ensures LeadsTo(s, own, t) && |own| <= 3 && forall step :: step in own ==> IsOwnStep(step)
    ensures t.accepted == s.accepted && t.state.pending == [] && !t.flusher.Emitting?
    ensures t.emitted == Taken(s) + PendingSlice(s)
  {
    assert s.flusher.AsleepIdle? || s.flusher.Exited? ==> s.state.pending == [];
    if s.flusher.Checking? {
      own, t := AwakeFlusherDrains(s);
    } else if s.flusher.AsleepWindow? {
      own, t := WokenFlusherDrains(s);
    } else if s.flusher.Emitting? {
      own, t := EmittingFlusherDrains(s);
    } else {
      NoSteps(s);
      own, t := [], s;
    }
    hide Inv, LeadsTo, IsOwnStep;
  }

  lemma WokenFlusherDrains(s: System) returns (own: seq<Step>, t: System)
    requires Inv(s) && s.flusher.AsleepWindow?
    ensures LeadsTo(s, own, t) && |own| <= 3 && forall step :: step in own ==> IsOwnStep(step)
    ensures t.accepted == s.accepted && t.state.pending == [] && !t.flusher.Emitting?
    ensures t.emitted == s.emitted + PendingSlice(s)
  {
    assert PendingStart(s) >= 0;
    WakingChecks(s);
    StepKeepsInv(s, Wake);
    hide Next, Inv, LeadsTo;
    own, t := AwakeFlusherDrains(Next(s, Wake));
    OneMore(s, Wake, own, t);
    own := [Wake] + own;
  }

  lemma EmittingFlusherDrains(s: System) returns (own: seq<Step>, t: System)
    requires Inv(s) && s.flusher.Emitting?
    ensures LeadsTo(s, own, t) && |own| <= 3 && forall step :: step in own ==> IsOwnStep(step)
    ensures t.accepted == s.accepted && t.state.pending == [] && !t.flusher.Emitting?
    ensures t.emitted == Taken(s) + PendingSlice(s)
  {
    assert PendingStart(s) >= 0;
    assert s.flusher.last ==> s.state.pending == [];
    DeliveredHandsOn(s);
    StepKeepsInv(s, Delivered);
    hide Next, Inv, LeadsTo;
    var u := Next(s, Delivered);
    if s.flusher.last {
      NoSteps(u);
      own, t := [], u;
    } else {
      own, t := AwakeFlusherDrains(u);
    }
    OneMore(s, Delivered, own, t);
    own := [Delivered] + own;
  }

  // --- UTF-8 ---------------------------------------------------------------------------

  /**
    While the pushed bytes are the beginning of well-formed UTF-8, an overflow leaves at most
    three bytes less than the cap, and what is left starts a character.
   */
  lemma OverflowCutsAtACharacter(s: System, data: seq<Byte>, stream: seq<Byte>)
    requires Inv(s) && Utf8.Valid(stream) && s.accepted + data <= stream
    requires data != [] && !s.state.closed && |s.state.pending + data| > MAX_PENDING_BYTES
    ensures var t := Next(s, Push(data));
            && MAX_PENDING_BYTES - 3 <= |t.state.pending| <= MAX_PENDING_BYTES
            && t.state.truncated
            && PendingStart(t) >= 0
            && Utf8.Boundary(stream, PendingStart(t))
            && !IsContinuation(t.state.pending[0])
  {
    hide Utf8.Valid, Utf8.Boundary;
    PushHasEffect(s, data);
    StreamWindow(s, data, stream);
    CutIsAtACharacter(s.state.pending + data, PendingStart(s), stream);
  }

  /** The grown buffer is where it says it is in the stream. */
  lemma StreamWindow(s: System, data: seq<Byte>, stream: seq<Byte>)
    requires 0 <= PendingStart(s) && s.state.pending == s.accepted[PendingStart(s)..]
    requires s.accepted + data <= stream
    ensures PendingStart(s) + |s.state.pending + data| <= |stream|
    ensures forall i :: 0 <= i < |s.state.pending + data| ==>
              (s.state.pending + data)[i] == stream[PendingStart(s) + i]
  {
    assert s.state.pending + data == (s.accepted + data)[PendingStart(s)..];
  }

  lemma CutIsAtACharacter(grown: seq<Byte>, start: nat, stream: seq<Byte>)
    requires Utf8.Valid(stream) && start + |grown| <= |stream| && |grown| > MAX_PENDING_BYTES
    requires forall i :: 0 <= i < |grown| ==> grown[i] == stream[start + i]
    ensures |grown| - MAX_PENDING_BYTES <= Overflow(grown) <= |grown| - MAX_PENDING_BYTES + 3
    ensures !IsContinuation(grown[Overflow(grown)]) && Utf8.Boundary(stream, start + Overflow(grown))
  {
    hide Utf8.Valid, Utf8.Boundary, NextLead;
    var cut := |grown| - MAX_PENDING_BYTES;
    Utf8.ContinuationRunsAreShort(stream, start + cut);
    var k :| start + cut <= k <= start + cut + 3 && !IsContinuation(stream[k]);
    assert !IsContinuation(grown[k - start]);
    Utf8.BoundaryIffLeadByte(stream, start + Overflow(grown));
  }

  ghost predicate ResumesAt(stream: seq<Byte>, before: seq<Slice>, start: nat)
    requires Utf8.Valid(stream)
  {
    start == (if before == [] then 0 else End(before[|before| - 1])) || Utf8.Boundary(stream, start)
  }

  /** Wherever `slices` leave a gap, they resume at a character of `stream`. */
  ghost predicate ResumesAtCharacters(stream: seq<Byte>, slices: seq<Slice>)
    requires Utf8.Valid(stream)
  {
    forall i :: 0 <= i < |slices| ==> ResumesAt(stream, slices[..i], slices[i].start)
  }

  lemma ResumesOnceMore(stream: seq<Byte>, before: seq<Slice>, last: Slice)
    requires Utf8.Valid(stream) && ResumesAtCharacters(stream, before) && ResumesAt(stream, before, last.start)
    ensures ResumesAtCharacters(stream, before + [last])
    ensures ResumesAt(stream, before + [last], End(last))
  {
    hide Utf8.Valid, Utf8.CharLength;
    var after := before + [last];
    forall i | 0 <= i < |after|
      ensures ResumesAt(stream, after[..i], after[i].start)
    {
      assert after[..i] == before[..i];
      assert i < |before| ==> ResumesAt(stream, before[..i], before[i].start);
      assert before[..|before|] == before;
    }
  }

  ghost predicate Utf8Inv(s: System, stream: seq<Byte>)
    requires Utf8.Valid(stream)
  {
    && ResumesAtCharacters(stream, Taken(s))
    && 0 <= PendingStart(s)
    && ResumesAt(stream, Taken(s), PendingStart(s))
  }

  lemma PushKeepsUtf8(s: System, data: seq<Byte>, stream: seq<Byte>)
    requires Inv(s) && Utf8.Valid(stream) && Next(s, Push(data)).accepted <= stream
    requires Utf8Inv(s, stream)
    ensures Utf8Inv(Next(s, Push(data)), stream)
  {
    hide Utf8.Valid, Utf8.Boundary;
    if data != [] && !s.state.closed {
      PushHasEffect(s, data);
      if Overflow(s.state.pending + data) > 0 {
        OverflowCutsAtACharacter(s, data, stream);
      }
    } else {
      IgnoredPush(s, data);
      hide *;
    }
  }

  lemma TakeKeepsUtf8(s: System, elapsed: bool, stream: seq<Byte>)
    requires Inv(s) && Enabled(s, Check(elapsed)) && Next(s, Check(elapsed)).flusher.Emitting?
    requires Utf8.Valid(stream) && Utf8Inv(s, stream)
    ensures Utf8Inv(Next(s, Check(elapsed)), stream)
  {
    hide Utf8.Valid, Utf8.CharLength;
    TakeAppendsSlice(s, elapsed);
    hide Inv, Taken, Next, ResumesAtCharacters;
    ResumesOnceMore(stream, Taken(s), Slice(PendingStart(s), s.state.pending));
  }

  lemma QuietKeepsUtf8(s: System, step: Step, stream: seq<Byte>)
    requires 0 <= PendingStart(s) && Enabled(s, step) && !step.Push? && Utf8.Valid(stream) && Utf8Inv(s, stream)
    requires !step.Check? || !Next(s, step).flusher.Emitting?
    requires s.flusher.Checking? && s.state.closed && step.Check? ==> s.state.pending == []
    ensures Utf8Inv(Next(s, step), stream)
  {
    hide Utf8.Valid, Utf8.Boundary, ResumesAtCharacters, ResumesAt;
    assert Taken(Next(s, step)) == Taken(s);
  }

  lemma StepKeepsUtf8(s: System, step: Step, stream: seq<Byte>)
    requires Inv(s) && Enabled(s, step) && Utf8.Valid(stream) && Next(s, step).accepted <= stream
    requires Utf8Inv(s, stream)
    ensures Utf8Inv(Next(s, step), stream)
  {
    hide Utf8.Valid, Utf8.Boundary, Chain, Chunks, Flatten;
    if step.Push? {
      PushKeepsUtf8(s, step.data, stream);
    } else if step.Check? && Next(s, step).flusher.Emitting? {
      TakeKeepsUtf8(s, step.elapsed, stream);
    } else {
      QuietKeepsUtf8(s, step, stream);
    }
  }

  lemma AcceptedGrows(s: System, step: Step)
    requires Enabled(s, step) && PendingStart(s) >= 0
    ensures s.accepted <= Next(s, step).accepted
  {
  }

  /** Every gap in the output of well-formed UTF-8 resumes at a lead byte. */
  lemma {:induction false} GapsResumeAtCharacters(states: seq<System>, steps: seq<Step>, i: nat, stream: seq<Byte>)
    requires IsRun(states, steps) && i < |states|
    requires Utf8.Valid(stream) && states[i].accepted <= stream
    ensures Utf8Inv(states[i], stream)
  {
    hide Inv, Next;
    hide Utf8.Valid, Utf8.Boundary;
    if i == 0 {
    } else {
      RunKeepsInv(states, steps, i - 1);
      AcceptedGrows(states[i - 1], steps[i - 1]);
      GapsResumeAtCharacters(states, steps, i - 1, stream);
      StepKeepsUtf8(states[i - 1], steps[i - 1], stream);
    }
  }
}
