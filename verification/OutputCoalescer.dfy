/**
  The coalescing buffer between a PTY's readers and its sink: what the mutex guards, and the
  critical sections of `push`, `close` and the flusher, in place and as functions.
 */
module OutputCoalescer {
  import opened Bytes

  const OUTPUT_FLUSH_SIZE: nat := 64 * 1024
  const MAX_PENDING_BYTES: nat := OUTPUT_FLUSH_SIZE * 64

  datatype Guarded = Guarded(pending: seq<Byte>, timed: bool, closed: bool, truncated: bool)

  /** The first position at or after `p` that holds no continuation byte. */
  function NextLead(s: seq<Byte>, p: nat): (r: nat)
    requires p <= |s|
    ensures p <= r <= |s|
    ensures r < |s| ==> !IsContinuation(s[r])
    ensures forall i :: p <= i < r ==> IsContinuation(s[i])
    decreases |s| - p
  {
    if p < |s| && IsContinuation(s[p]) then NextLead(s, p + 1) else p
  }

  /** How many of the oldest bytes an over-full buffer gives up. */
  function Overflow(s: seq<Byte>): (r: nat)
    ensures r <= |s| && |s| - r <= MAX_PENDING_BYTES
    ensures r == 0 <==> |s| <= MAX_PENDING_BYTES
  {
    if |s| <= MAX_PENDING_BYTES then 0 else NextLead(s, |s| - MAX_PENDING_BYTES)
  }

  function Pushed(g: Guarded, data: seq<Byte>): Guarded {
    if data == [] || g.closed then g
    else
      var grown := g.pending + data;
      Guarded(grown[Overflow(grown)..], true, g.closed, g.truncated || Overflow(grown) > 0)
  }

  /** What the flusher does when it holds the lock at the top of its loop. */
  datatype Verdict = SleepIdle | SleepWindow | Emit(chunk: seq<Byte>) | Finish(tail: seq<Byte>)

  function Flush(g: Guarded, elapsed: bool): (Guarded, Verdict) {
    if g.closed then (g.(pending := [], timed := false), Finish(g.pending))
    else if g.pending == [] then (g, SleepIdle)
    else if |g.pending| >= OUTPUT_FLUSH_SIZE || elapsed then
      (g.(pending := [], timed := false), Emit(g.pending))
    else (g, SleepWindow)
  }

  class CoalescerInner {
    var pending: seq<Byte>
    var timed: bool          // whether `first_byte_at` is set
    var closed: bool
    var truncated: bool

    ghost function View(): Guarded
      reads this
    {
      Guarded(pending, timed, closed, truncated)
    }

    constructor ()
      ensures View() == Guarded([], false, false, false)
    {
      pending, timed, closed, truncated := [], false, false, false;
    }

    method Push(data: seq<Byte>)
      modifies this
      ensures View() == Pushed(old(View()), data)
    {
      if data == [] {
        return;
      }
      if closed {
        return;
      }
      pending := pending + data;
      if |pending| > MAX_PENDING_BYTES {
        var overflow := |pending| - MAX_PENDING_BYTES;
        while overflow < |pending| && IsContinuation(pending[overflow])
          invariant overflow <= |pending|
          invariant NextLead(pending, overflow) == NextLead(pending, |pending| - MAX_PENDING_BYTES)
        {
          overflow := overflow + 1;
        }
        ghost var grown := pending;
        assert overflow == Overflow(grown);
        pending := pending[overflow..];
        truncated := true;
      }
      timed := true;
    }

    method Close()
      modifies this
      ensures View() == old(View()).(closed := true)
    {
      closed := true;
    }

    method Check(elapsed: bool) returns (verdict: Verdict)
      modifies this
      ensures (View(), verdict) == Flush(old(View()), elapsed)
    {
      if !closed && pending == [] {
        return SleepIdle;
      }
      if closed {
        var drained := pending;
        pending, timed := [], false;
        return Finish(drained);
      }
      if |pending| >= OUTPUT_FLUSH_SIZE || elapsed {
        var drained := pending;
        pending, timed := [], false;
        return Emit(drained);
      }
      return SleepWindow;
    }
  }
}
