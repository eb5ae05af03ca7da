/** Which lines of a conflicted file are shown, and the hunks built from them. */
module ConflictRanges {
  import opened Integers
  import opened PatchText

  const CONFLICT_CONTEXT_LINES: nat := 3

  /** A half-open range of line indices. */
  datatype Range = Range(start: nat, end: nat)

  predicate Opens(line: string) {
    "<<<<<<<" <= line
  }

  predicate Closes(line: string) {
    ">>>>>>>" <= line
  }

  /** The first line at or after `i` that closes a conflict, or the number of lines. */
  function NextClose(lines: seq<string>, i: nat): (r: nat)
    requires i <= |lines|
    ensures i <= r <= |lines|
    ensures r < |lines| ==> Closes(lines[r])
    ensures forall k :: i <= k < r ==> !Closes(lines[k])
    decreases |lines| - i
  {
    if i < |lines| && !Closes(lines[i]) then NextClose(lines, i + 1) else i
  }

  /** Where the block opened at `m` stops being shown: its close, trailing context included. */
  function BlockEnd(lines: seq<string>, m: nat): (r: nat)
    requires m < |lines|
    ensures m < r <= |lines|
    ensures r < |lines| ==> m + 1 + CONFLICT_CONTEXT_LINES <= r
  {
    var close := NextClose(lines, m + 1);
    Min((if close < |lines| then close + 1 else close) + CONFLICT_CONTEXT_LINES, |lines|)
  }

  function BlockStart(m: nat): nat {
    if m < CONFLICT_CONTEXT_LINES then 0 else m - CONFLICT_CONTEXT_LINES
  }

  lemma NextCloseIsFirst(lines: seq<string>, i: nat, close: nat)
    requires i <= close < |lines| && ">>>>>>>" <= lines[close]
    requires forall k :: i <= k < close ==> !(">>>>>>>" <= lines[k])
    ensures NextClose(lines, i) == close
  {
    var found := NextClose(lines, i);
    assert found < close ==> Closes(lines[found]);
    assert close < found ==> !Closes(lines[close]);
  }

  /**
    A block runs from three lines before its marker through its first closing marker and the
    three lines after that, as far as the file goes; without a closing marker it has no end.
   */
  lemma BlockHoldsItsConflict(lines: seq<string>, m: nat, close: nat, k: int)
    requires m < |lines| && m < close <= |lines|
    requires close < |lines| ==> ">>>>>>>" <= lines[close]
    requires forall i :: m < i < close ==> !(">>>>>>>" <= lines[i])
    ensures BlockStart(m) <= k < BlockEnd(lines, m) <==> 0 <= k && m - 3 <= k <= close + 3 && k < |lines|
  {
    if close < |lines| {
      NextCloseIsFirst(lines, m + 1, close);
    }
  }

  /** The markers the scan stops at from `i` on; one inside a shown block is passed over. */
  function Scanned(lines: seq<string>, i: nat): seq<nat>
    requires i <= |lines|
    decreases |lines| - i
  {
    if i == |lines| then []
    else if Opens(lines[i]) then [i] + Scanned(lines, BlockEnd(lines, i))
    else Scanned(lines, i + 1)
  }

  /** An opening marker is passed over only inside the block of an earlier one. */
  lemma {:induction false} MarkersAreScannedOrCovered(lines: seq<string>, i: nat, k: nat)
    requires i <= k < |lines| && Opens(lines[k])
    ensures k in Scanned(lines, i) || exists m :: m in Scanned(lines, i) && m < k && k < BlockEnd(lines, m)
    decreases |lines| - i
  {
    hide BlockEnd;
    if Opens(lines[i]) {
      if i < k && BlockEnd(lines, i) <= k {
        MarkersAreScannedOrCovered(lines, BlockEnd(lines, i), k);
      }
    } else {
      MarkersAreScannedOrCovered(lines, i + 1, k);
    }
  }

  ghost predicate InRanges(ranges: seq<Range>, k: int) {
    exists r :: 0 <= r < |ranges| && ranges[r].start <= k < ranges[r].end
  }

  /** `k` is shown because of one of these markers. */
  ghost predicate InBlocks(lines: seq<string>, markers: seq<nat>, k: int) {
    exists m :: m in markers && m < |lines| && BlockStart(m) <= k < BlockEnd(lines, m)
  }

  /** In bounds, non-empty, increasing, with at least one line between neighbours. */
  ghost predicate Separated(ranges: seq<Range>, bound: nat) {
    && (forall r :: 0 <= r < |ranges| ==> ranges[r].start < ranges[r].end <= bound)
    && (forall r, q :: 0 <= r < q < |ranges| ==> ranges[r].end < ranges[q].start)
  }

  /** Adding the block opened at `m`: into the last range when it reaches it, else as a new one. */
  function WithBlock(ranges: seq<Range>, start: nat, end: nat): seq<Range> {
    if ranges != [] && start <= ranges[|ranges| - 1].end then
      var last := ranges[|ranges| - 1];
      ranges[..|ranges| - 1] + [Range(last.start, if last.end < end then end else last.end)]
    else ranges + [Range(start, end)]
  }

  lemma WithBlockAddsTheBlock(ranges: seq<Range>, start: nat, end: nat, bound: nat, k: int)
    requires Separated(ranges, bound) && start < end
    requires ranges != [] ==> ranges[|ranges| - 1].start <= start
    ensures InRanges(WithBlock(ranges, start, end), k) <==> InRanges(ranges, k) || start <= k < end
  {
    var after, n := WithBlock(ranges, start, end), |ranges|;
    if InRanges(ranges, k) {
      var r :| 0 <= r < n && ranges[r].start <= k < ranges[r].end;
      assert after[r].start <= k < after[r].end;
    }
    if start <= k < end {
      assert after[|after| - 1].start <= k < after[|after| - 1].end;
    }
    if InRanges(after, k) {
      var r :| 0 <= r < |after| && after[r].start <= k < after[r].end;
      assert r < |after| - 1 ==> ranges[r] == after[r];
      assert r == |after| - 1 && |after| == n && k < start ==> ranges[r].start <= k < ranges[r].end;
    }
  }

  lemma WithBlockStaysSeparated(ranges: seq<Range>, start: nat, end: nat, bound: nat)
    requires Separated(ranges, bound) && start < end
    requires ranges != [] ==> ranges[|ranges| - 1].start <= start
    ensures Separated(WithBlock(ranges, start, end), if bound < end then end else bound)
    ensures var after := WithBlock(ranges, start, end);
            after != [] && after[|after| - 1].start <= start
  {
    var after := WithBlock(ranges, start, end);
    assert forall r :: 0 <= r < |after| - 1 ==> after[r] == ranges[r];
  }

  lemma MarkerAddsItsBlock(lines: seq<string>, markers: seq<nat>, m: nat, k: int)
    requires m < |lines|
    ensures InBlocks(lines, markers + [m], k)
            <==> InBlocks(lines, markers, k) || BlockStart(m) <= k < BlockEnd(lines, m)
  {
    var longer := markers + [m];
    assert m in longer;
    if InBlocks(lines, markers, k) {
      var x :| x in markers && x < |lines| && BlockStart(x) <= k < BlockEnd(lines, x);
      assert x in longer;
    }
  }

  /** The state of the scan at `index`: what the ranges hold, and that no marker is behind. */
  ghost predicate ScanInv(lines: seq<string>, ranges: seq<Range>, markers: seq<nat>, index: nat) {
    && index <= |lines|
    && Separated(ranges, index)
    && Scanned(lines, 0) == markers + Scanned(lines, index)
    && (forall k: int :: InRanges(ranges, k) <==> InBlocks(lines, markers, k))
    && (forall k :: 0 <= k < index && Opens(lines[k]) ==> InRanges(ranges, k))
    && (ranges == [] <==> markers == [])
    && (ranges != [] && index < |lines| ==> ranges[|ranges| - 1].start + CONFLICT_CONTEXT_LINES <= index)
  }

  lemma ScanBlock(lines: seq<string>, ranges: seq<Range>, markers: seq<nat>, m: nat)
    requires ScanInv(lines, ranges, markers, m) && m < |lines| && Opens(lines[m])
    ensures var end := BlockEnd(lines, m);
            ScanInv(lines, WithBlock(ranges, BlockStart(m), end), markers + [m], end)
  {
    var start, end := BlockStart(m), BlockEnd(lines, m);
    var after := WithBlock(ranges, start, end);
    WithBlockStaysSeparated(ranges, start, end, m);
    forall k: int
      ensures InRanges(after, k) <==> InRanges(ranges, k) || start <= k < end
      ensures InRanges(after, k) <==> InBlocks(lines, markers + [m], k)
    {
      WithBlockAddsTheBlock(ranges, start, end, m, k);
      MarkerAddsItsBlock(lines, markers, m, k);
    }
    assert markers + Scanned(lines, m) == (markers + [m]) + Scanned(lines, end);
  }

  lemma ScanBegins(lines: seq<string>)
    ensures ScanInv(lines, [], [], 0)
  {
  }

  lemma ScanPasses(lines: seq<string>, ranges: seq<Range>, markers: seq<nat>, index: nat)
    requires ScanInv(lines, ranges, markers, index) && index < |lines| && !Opens(lines[index])
    ensures ScanInv(lines, ranges, markers, index + 1)
  {
    hide InRanges, InBlocks;
  }

  /** What the ranges found by the scan are, a file without an opening marker included. */
  ghost predicate ShownRanges(lines: seq<string>, ranges: seq<Range>) {
    && Separated(ranges, |lines|)
    && (forall k :: 0 <= k < |lines| && "<<<<<<<" <= lines[k] ==> InRanges(ranges, k))
    && (Scanned(lines, 0) != [] ==>
          forall k: int :: InRanges(ranges, k) <==> InBlocks(lines, Scanned(lines, 0), k))
    && (Scanned(lines, 0) == [] ==> ranges == if lines == [] then [] else [Range(0, |lines|)])
  }

  lemma ScanEnds(lines: seq<string>, ranges: seq<Range>, markers: seq<nat>)
    requires ScanInv(lines, ranges, markers, |lines|)
    ensures ShownRanges(lines, if ranges == [] && lines != [] then [Range(0, |lines|)] else ranges)
  {
    assert Scanned(lines, 0) == markers;
    if ranges == [] && lines != [] {
      var all := [Range(0, |lines|)];
      forall k | 0 <= k < |lines|
        ensures InRanges(all, k)
      {
        assert all[0].start <= k < all[0].end;
      }
    }
  }

  method FindBlockEnd(lines: seq<string>, index: nat) returns (end: nat)
    requires index < |lines|
    ensures end == BlockEnd(lines, index)
  {
    end := index + 1;
    while end < |lines| && !(">>>>>>>" <= lines[end])
      invariant index < end <= |lines|
      invariant NextClose(lines, end) == NextClose(lines, index + 1)
    {
      end := end + 1;
    }
    if end < |lines| {
      end := end + 1;
    }
    end := Min(end + CONFLICT_CONTEXT_LINES, |lines|);
  }

  method AddBlock(ranges: seq<Range>, start: nat, end: nat) returns (after: seq<Range>)
    ensures after == WithBlock(ranges, start, end)
  {
    if ranges != [] {
      var last := ranges[|ranges| - 1];
      if start <= last.end {
        after := ranges[..|ranges| - 1] + [Range(last.start, if last.end < end then end else last.end)];
      } else {
        after := ranges + [Range(start, end)];
      }
    } else {
      after := [Range(start, end)];
    }
  }

  /**
    The ranges shown: separated by at least one line, together exactly the blocks of the
    scanned markers, and holding every opening marker; the whole file when there is none.
   */
  method ConflictedContextRanges(lines: seq<string>) returns (ranges: seq<Range>)
    ensures ShownRanges(lines, ranges)
  {
    hide ScanInv, Scanned, ShownRanges, BlockEnd, WithBlock;
    ranges := [];
    var index := 0;
    ghost var markers: seq<nat> := [];
    ScanBegins(lines);
    while index < |lines|
      invariant index <= |lines|
      invariant ScanInv(lines, ranges, markers, index)
    {
      if !("<<<<<<<" <= lines[index]) {
        ScanPasses(lines, ranges, markers, index);
        index := index + 1;
        continue;
      }
      var start := if index < CONFLICT_CONTEXT_LINES then 0 else index - CONFLICT_CONTEXT_LINES;
      var end := FindBlockEnd(lines, index);
      ScanBlock(lines, ranges, markers, index);
      ranges := AddBlock(ranges, start, end);
      markers := markers + [index];
      index := end;
    }
    ScanEnds(lines, ranges, markers);
    if ranges == [] && lines != [] {
      ranges := [Range(0, |lines|)];
    }
  }

  // --- hunks ---------------------------------------------------------------------------

  datatype ContextLine = ContextLine(content: string, oldNumber: nat, newNumber: nat, index: nat)

  datatype ContextHunk = ContextHunk(
    header: string, lines: seq<ContextLine>, oldStart: nat, oldCount: nat, newStart: nat, newCount: nat)

  function HunkOf(lines: seq<string>, range: Range): ContextHunk
    requires range.start <= range.end <= |lines|
  {
    var startLine, count := range.start + 1, range.end - range.start;
    ContextHunk(
      HeaderText(startLine, count, startLine, count),
      seq(count, offset requires 0 <= offset < count =>
        ContextLine(lines[range.start + offset], startLine + offset, startLine + offset, range.start + offset)),
      startLine, count, startLine, count)
  }

  function HunksOf(lines: seq<string>, ranges: seq<Range>): seq<ContextHunk>
    requires forall r :: 0 <= r < |ranges| ==> ranges[r].start <= ranges[r].end <= |lines|
  {
    seq(|ranges|, r requires 0 <= r < |ranges| => HunkOf(lines, ranges[r]))
  }

  /** The line carries the file's text at its index, under the matching line numbers. */
  ghost predicate ShowsItsLine(lines: seq<string>, line: ContextLine) {
    && line.index < |lines|
    && line.content == lines[line.index]
    && line.oldNumber == line.newNumber == line.index + 1
  }

  /** Consecutive lines from `oldStart` on, as many as the header and the counts say. */
  ghost predicate HeaderFits(hunk: ContextHunk) {
    && |hunk.lines| == hunk.oldCount == hunk.newCount > 0
    && hunk.oldStart == hunk.newStart
    && hunk.header == HeaderText(hunk.oldStart, hunk.oldCount, hunk.newStart, hunk.newCount)
    && forall o :: 0 <= o < |hunk.lines| ==> hunk.lines[o].oldNumber == hunk.oldStart + o
  }

  ghost predicate ShownBy(hunk: ContextHunk, k: int) {
    exists o :: 0 <= o < |hunk.lines| && hunk.lines[o].index == k
  }

  ghost predicate Shown(hunks: seq<ContextHunk>, k: int) {
    exists h :: 0 <= h < |hunks| && ShownBy(hunks[h], k)
  }

  lemma HunkShowsTheRange(lines: seq<string>, range: Range)
    requires range.start < range.end <= |lines|
    ensures HeaderFits(HunkOf(lines, range))
    ensures forall o :: 0 <= o < |HunkOf(lines, range).lines| ==> ShowsItsLine(lines, HunkOf(lines, range).lines[o])
    ensures forall o :: 0 <= o < |HunkOf(lines, range).lines| ==> HunkOf(lines, range).lines[o].index == range.start + o
  {
  }

  lemma HunkShowsExactly(lines: seq<string>, range: Range, k: int)
    requires range.start < range.end <= |lines|
    ensures ShownBy(HunkOf(lines, range), k) <==> range.start <= k < range.end
  {
    HunkShowsTheRange(lines, range);
    var hunk := HunkOf(lines, range);
    hide HunkOf, ShowsItsLine;
    if range.start <= k < range.end {
      assert hunk.lines[k - range.start].index == k;
    }
  }

  lemma HunksShowTheRanges(lines: seq<string>, ranges: seq<Range>, k: int)
    requires Separated(ranges, |lines|)
    ensures Shown(HunksOf(lines, ranges), k) <==> InRanges(ranges, k)
  {
    hide HunkOf, ShownBy;
    var hunks := HunksOf(lines, ranges);
    if Shown(hunks, k) {
      var h :| 0 <= h < |hunks| && ShownBy(hunks[h], k);
      HunkShowsExactly(lines, ranges[h], k);
    }
    if InRanges(ranges, k) {
      var r :| 0 <= r < |ranges| && ranges[r].start <= k < ranges[r].end;
      HunkShowsExactly(lines, ranges[r], k);
      assert ShownBy(hunks[r], k);
    }
  }

  /**
    Every hunk shows its lines under matching numbers and counts; together the hunks show
    exactly the scanned blocks, the whole file when there are none, and every marker.
   */
  method BuildConflictedHunks(lines: seq<string>) returns (hunks: seq<ContextHunk>)
    ensures forall h :: 0 <= h < |hunks| ==> HeaderFits(hunks[h])
    ensures forall h, o :: 0 <= h < |hunks| && 0 <= o < |hunks[h].lines| ==> ShowsItsLine(lines, hunks[h].lines[o])
    ensures forall h, g :: 0 <= h < g < |hunks| ==> hunks[h].oldStart + hunks[h].oldCount < hunks[g].oldStart
    ensures forall k :: 0 <= k < |lines| && "<<<<<<<" <= lines[k] ==> Shown(hunks, k)
    ensures Scanned(lines, 0) != [] ==>
              forall k: int :: Shown(hunks, k) <==> InBlocks(lines, Scanned(lines, 0), k)
    ensures Scanned(lines, 0) == [] ==> forall k: int :: Shown(hunks, k) <==> 0 <= k < |lines|
  {
    hide Scanned, InBlocks, Opens;
    var ranges := ConflictedContextRanges(lines);
    hunks := HunksOf(lines, ranges);
    forall h | 0 <= h < |hunks|
      ensures HeaderFits(hunks[h])
      ensures forall o :: 0 <= o < |hunks[h].lines| ==> ShowsItsLine(lines, hunks[h].lines[o])
      ensures hunks[h].oldStart == ranges[h].start + 1 && hunks[h].oldCount == ranges[h].end - ranges[h].start
    {
      HunkShowsTheRange(lines, ranges[h]);
    }
    forall k: int
      ensures Shown(hunks, k) <==> InRanges(ranges, k)
    {
      HunksShowTheRanges(lines, ranges, k);
    }
    if Scanned(lines, 0) == [] {
      forall k: int
        ensures InRanges(ranges, k) <==> 0 <= k < |lines|
      {
        assert 0 <= k < |lines| ==> ranges[0].start <= k < ranges[0].end;
      }
    }
    hide HeaderFits, ShowsItsLine, Shown, HunkOf;
  }
}
