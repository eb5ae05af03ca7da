/** The raw scrollback ring: the newest `limit` bytes, whatever chunks they arrived in. */
module Scrollback {
  import opened Bytes

  const MAX_SCROLLBACK_BYTES: nat := 256 * 1024

  datatype Ring = Ring(bytes: seq<Byte>, truncated: bool)

  /** The last `limit` elements of `s`, or all of it. */
  function Last(s: seq<Byte>, limit: nat): seq<Byte> {
    if |s| <= limit then s else s[|s| - limit..]
  }

  function Appended(ring: Ring, chunk: seq<Byte>, limit: nat): Ring {
    if limit == 0 || chunk == [] then ring
    else
      var grown := ring.bytes + chunk;
      if |grown| > limit then Ring(grown[|grown| - limit..], true) else Ring(grown, ring.truncated)
  }

  function AppendedAll(ring: Ring, chunks: seq<seq<Byte>>, limit: nat): Ring
    decreases |chunks|
  {
    if chunks == [] then ring else AppendedAll(Appended(ring, chunks[0], limit), chunks[1..], limit)
  }

  lemma DropTwice(s: seq<Byte>, a: nat, b: nat)
    requires a + b <= |s|
    ensures s[a..][b..] == s[a + b..]
  {
  }

  lemma LastOfLast(history: seq<Byte>, chunk: seq<Byte>, limit: nat)
    ensures Last(Last(history, limit) + chunk, limit) == Last(history + chunk, limit)
  {
    if |history| <= limit {
      assert Last(history, limit) == history;
    } else {
      var all, dropped := history + chunk, |history| - limit;
      assert Last(history, limit) + chunk == all[dropped..];
      DropTwice(all, dropped, |chunk|);
    }
  }

  lemma NoneOf(s: seq<Byte>)
    ensures Last(s, 0) == []
  {
  }

  /** One append to a ring that shows the end of `history` shows the end of the longer history. */
  lemma AppendedShowsTheEnd(ring: Ring, history: seq<Byte>, chunk: seq<Byte>, limit: nat)
    requires ring.bytes == Last(history, limit)
    ensures Appended(ring, chunk, limit).bytes == Last(history + chunk, limit)
    ensures limit == 0 ==> Appended(ring, chunk, limit) == ring
    ensures 0 < limit && (|history| > limit ==> ring.truncated) ==>
              (Appended(ring, chunk, limit).truncated <==> ring.truncated || |history + chunk| > limit)
  {
    if limit == 0 {
      NoneOf(history);
      NoneOf(history + chunk);
    } else if chunk == [] {
      assert history + chunk == history;
    } else {
      LastOfLast(history, chunk, limit);
    }
  }

  /** However a stream is cut into chunks, the ring ends up with the stream's last bytes. */
  lemma {:induction false} ChunkingIsInvisible(ring: Ring, history: seq<Byte>, chunks: seq<seq<Byte>>, limit: nat)
    requires ring.bytes == Last(history, limit)
    ensures AppendedAll(ring, chunks, limit).bytes == Last(history + Flatten(chunks), limit)
    ensures limit == 0 ==> AppendedAll(ring, chunks, limit) == ring
    ensures 0 < limit && (|history| > limit ==> ring.truncated) ==>
              (AppendedAll(ring, chunks, limit).truncated <==> ring.truncated || |history + Flatten(chunks)| > limit)
    decreases |chunks|
  {
    hide Last;
    if chunks == [] {
      assert history + Flatten(chunks) == history;
    } else {
      var next := Appended(ring, chunks[0], limit);
      AppendedShowsTheEnd(ring, history, chunks[0], limit);
      hide Appended;
      ChunkingIsInvisible(next, history + chunks[0], chunks[1..], limit);
      assert history + Flatten(chunks) == (history + chunks[0]) + Flatten(chunks[1..]);
    }
  }

  class ScrollbackRing {
    var bytes: seq<Byte>
    var truncated: bool

    ghost function View(): Ring
      reads this
    {
      Ring(bytes, truncated)
    }

    constructor ()
      ensures View() == Ring([], false)
    {
      bytes, truncated := [], false;
    }

    /** Append `chunk`, dropping the oldest bytes past `limit`. */
    method Append(chunk: seq<Byte>, limit: nat)
      modifies this
      ensures View() == Appended(old(View()), chunk, limit)
    {
      if limit == 0 || chunk == [] {
        return;
      }
      bytes := bytes + chunk;
      if |bytes| > limit {
        var overflow := |bytes| - limit;
        bytes := bytes[overflow..];
        truncated := true;
      }
    }
  }
}
