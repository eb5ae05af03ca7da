/**
  Staging, unstaging and discarding: where `git apply` puts a patch of one hunk, and what the
  file then holds.

  The header's new start is where git looks first, although the patch leaves the earlier hunks
  out; from there it tries one line later, one earlier, two later, two earlier, and so on.
 */
module GitApply {
  import opened Integers
  import opened Options
  import opened SelectivePatch

  datatype Fragment = Fragment(oldStart: nat, newStart: nat, lines: seq<Line>)

  predicate HasChange(lines: seq<Line>) {
    exists i :: 0 <= i < |lines| && IsChange(lines[i])
  }

  /** A hunk for the first line has to match at the beginning. */
  predicate AtBeginning(f: Fragment) {
    f.oldStart <= 1
  }

  /** A hunk without trailing context has to match at the end. */
  predicate AtEnd(f: Fragment) {
    f.lines == [] || IsChange(f.lines[|f.lines| - 1])
  }

  predicate Fits(file: seq<string>, f: Fragment, at: int) {
    var side := OldSide(f.lines);
    && 0 <= at && at + |side| <= |file|
    && (AtBeginning(f) ==> at == 0)
    && (AtEnd(f) ==> at + |side| == |file|)
    && file[at..at + |side|] == side
  }

  function FirstTry(file: seq<string>, f: Fragment): (line: nat)
    ensures line <= |file|
  {
    var size := |OldSide(f.lines)|;
    if AtBeginning(f) then 0
    else if AtEnd(f) then if size <= |file| then |file| - size else |file|
    else Min(if f.newStart > 0 then f.newStart - 1 else 0, |file|)
  }

  /** The line tried as number `rank`, counting from zero. */
  function Tried(line: nat, rank: nat): int {
    if rank % 2 == 1 then line + (rank + 1) / 2 else line - rank / 2
  }

  function Search(file: seq<string>, f: Fragment, line: nat, rank: nat): Option<nat>
    decreases 2 * |file| + 1 - rank
  {
    if rank > 2 * |file| then None
    else if Fits(file, f, Tried(line, rank)) then Some(Tried(line, rank))
    else Search(file, f, line, rank + 1)
  }

  /** Where the hunk goes; a patch without a change is refused as corrupt. */
  function Place(file: seq<string>, f: Fragment): Option<nat> {
    if HasChange(f.lines) then Search(file, f, FirstTry(file, f), 0) else None
  }

  function Apply(file: seq<string>, f: Fragment): Option<seq<string>> {
    match Place(file, f)
    case None => None
    case Some(at) =>
      if at + |OldSide(f.lines)| <= |file| then
        Some(file[..at] + NewSide(f.lines) + file[at + |OldSide(f.lines)|..])
      else None
  }

  // --- the place -----------------------------------------------------------------------

  /** How many lines are tried before this one. */
  function Rank(line: nat, at: nat): nat {
    if at > line then 2 * (at - line) - 1 else 2 * (line - at)
  }

  lemma RankOfTried(line: nat, rank: nat, at: nat)
    ensures Tried(line, rank) == at <==> Rank(line, at) == rank
  {
  }

  /** The old side is found at `q`, which is tried before `at`. */
  ghost predicate Earlier(file: seq<string>, f: Fragment, q: nat, at: nat) {
    Fits(file, f, q) && Rank(FirstTry(file, f), q) < Rank(FirstTry(file, f), at)
  }

  lemma {:induction false} SearchIff(file: seq<string>, f: Fragment, line: nat, rank: nat, at: nat)
    requires line <= |file| && rank <= 2 * |file| + 1
    requires forall q: nat :: Fits(file, f, q) ==> rank <= Rank(line, q)
    ensures Search(file, f, line, rank) == Some(at)
            <==> Fits(file, f, at) && forall q: nat :: Fits(file, f, q) ==> Rank(line, at) <= Rank(line, q)
    decreases 2 * |file| + 1 - rank
  {
    if rank > 2 * |file| {
      assert Fits(file, f, at) ==> Rank(line, at) <= 2 * |file|;
    } else {
      hide Fits, Tried, Rank;
      RankOfTried(line, rank, at);
      var here := Tried(line, rank);
      if Fits(file, f, here) {
        NotBelowZero(file, f, here);
        RankOfTried(line, rank, here);
      } else {
        forall q: nat | Fits(file, f, q)
          ensures rank + 1 <= Rank(line, q)
        {
          RankOfTried(line, rank, q);
        }
        SearchIff(file, f, line, rank + 1, at);
      }
    }
  }

  lemma NotBelowZero(file: seq<string>, f: Fragment, at: int)
    requires Fits(file, f, at)
    ensures at >= 0
  {
  }

  /** A hunk that has to match at an end of the file belongs there. */
  ghost predicate Anchored(before: seq<string>, f: Fragment, after: seq<string>) {
    (AtBeginning(f) ==> before == []) && (AtEnd(f) ==> after == [])
  }

  /**
    Git finds the place the hunk was made for exactly when the anchors allow it and no other
    occurrence of the old side is tried earlier.
   */
  lemma LandsInPlaceIff(before: seq<string>, f: Fragment, after: seq<string>)
    requires HasChange(f.lines)
    ensures var file := before + OldSide(f.lines) + after;
            Place(file, f) == Some(|before|)
            <==> Anchored(before, f, after) && !exists q: nat :: Earlier(file, f, q, |before|)
  {
    var file := before + OldSide(f.lines) + after;
    FitsInPlaceIff(before, f, after);
    SearchIff(file, f, FirstTry(file, f), 0, |before|);
    hide Fits, FirstTry, Rank, Search, Anchored, HasChange, OldSide;
    if Fits(file, f, |before|) && !exists q: nat :: Earlier(file, f, q, |before|) {
      forall q: nat | Fits(file, f, q)
        ensures Rank(FirstTry(file, f), |before|) <= Rank(FirstTry(file, f), q)
      {
        assert !Earlier(file, f, q, |before|);
      }
    }
  }

  lemma FitsInPlaceIff(before: seq<string>, f: Fragment, after: seq<string>)
    ensures Fits(before + OldSide(f.lines) + after, f, |before|) <==> Anchored(before, f, after)
  {
    var side := OldSide(f.lines);
    var file := before + side + after;
    assert file[|before|..|before| + |side|] == side;
    hide OldSide;
  }

  /** There the file's other lines stay as they are. */
  lemma InPlaceResult(before: seq<string>, f: Fragment, after: seq<string>)
    requires Place(before + OldSide(f.lines) + after, f) == Some(|before|)
    ensures Apply(before + OldSide(f.lines) + after, f) == Some(before + NewSide(f.lines) + after)
  {
    hide Place, OldSide, NewSide;
    var file := before + OldSide(f.lines) + after;
    assert file[..|before|] == before && file[|before| + |OldSide(f.lines)|..] == after;
  }

  /** No drift: an anchored hunk, or one whose new start names its place, lands there at once. */
  lemma NoDriftLandsInPlace(before: seq<string>, f: Fragment, after: seq<string>)
    requires HasChange(f.lines) && Anchored(before, f, after)
    requires AtBeginning(f) || AtEnd(f) || f.newStart == |before| + 1
    ensures Place(before + OldSide(f.lines) + after, f) == Some(|before|)
  {
    var file := before + OldSide(f.lines) + after;
    assert FirstTry(file, f) == |before|;
    LandsInPlaceIff(before, f, after);
    hide Place, OldSide, Fits, HasChange;
  }

  /**
    Drift: with the earlier hunks left out, the new start can name another occurrence of the old
    side, in whatever way the two overlap. Git reports success and changes that one.
   */
  lemma DriftedHunkGoesAstray(
    before: seq<string>, f: Fragment, after: seq<string>, elsewhere: seq<string>, beyond: seq<string>)
    requires HasChange(f.lines) && !AtBeginning(f) && !AtEnd(f)
    requires before + OldSide(f.lines) + after == elsewhere + OldSide(f.lines) + beyond
    requires |elsewhere| != |before| && f.newStart == |elsewhere| + 1
    ensures var file := before + OldSide(f.lines) + after;
            && Place(file, f) == Some(|elsewhere|) != Some(|before|)
            && Apply(file, f) == Some(elsewhere + NewSide(f.lines) + beyond)
  {
    NoDriftLandsInPlace(elsewhere, f, beyond);
    InPlaceResult(elsewhere, f, beyond);
    hide *;
  }

  /**
    For one, where the old side stands twice in a row, a hunk for the first, whose new start an
    earlier hunk of as many added lines has moved, changes the second.
   */
  lemma DriftedHunkChangesTheWrongBlock(before: seq<string>, lines: seq<Line>, after: seq<string>)
    requires HasChange(lines) && before != [] && OldSide(lines) != []
    requires !AtEnd(Fragment(|before| + 1, |before| + |OldSide(lines)| + 1, lines))
    ensures var side := OldSide(lines);
            Apply(before + side + (side + after), Fragment(|before| + 1, |before| + |side| + 1, lines))
            == Some((before + side) + NewSide(lines) + after)
  {
    var side := OldSide(lines);
    var f := Fragment(|before| + 1, |before| + |side| + 1, lines);
    assert before + side + (side + after) == (before + side) + side + after;
    DriftedHunkGoesAstray(before, f, side + after, before + side, after);
    hide Apply, Place, OldSide, NewSide, HasChange;
  }

  // --- staging -------------------------------------------------------------------------

  /** The patch of a whole hunk. */
  function Whole(hunk: Hunk): Fragment {
    Fragment(hunk.oldStart, hunk.newStart, hunk.lines)
  }

  /** The patch of a selection, under the hunk's own starts. */
  function Selected(hunk: Hunk, selected: set<nat>): Fragment {
    Fragment(hunk.oldStart, hunk.newStart, Select(hunk.lines, selected))
  }

  lemma {:induction false} SelectedHasChange(lines: seq<Line>, selected: set<nat>)
    requires HasSelectedChange(lines, selected)
    ensures HasChange(Select(lines, selected))
  {
    if lines == [] {
    } else {
      var rest := Select(lines[1..], selected);
      if IsChange(lines[0]) && lines[0].index in selected {
        assert Select(lines, selected)[0] == lines[0];
      } else {
        var i :| 0 <= i < |lines| && IsChange(lines[i]) && lines[i].index in selected;
        assert lines[1..][i - 1] == lines[i];
        SelectedHasChange(lines[1..], selected);
        var k :| 0 <= k < |rest| && IsChange(rest[k]);
        assert Select(lines, selected)[|Picked(lines[0], selected)| + k] == rest[k];
      }
    }
  }

  /** A selection is anchored no more than its hunk. */
  lemma SelectionKeepsAnchors(before: seq<string>, hunk: Hunk, after: seq<string>, selected: set<nat>)
    requires Anchored(before, Whole(hunk), after) && HasSelectedChange(hunk.lines, selected)
    ensures Anchored(before, Selected(hunk, selected), after)
  {
    SelectedHasChange(hunk.lines, selected);
    var n := |hunk.lines|;
    var last := hunk.lines[n - 1];
    assert hunk.lines == hunk.lines[..n - 1] + [last];
    SelectConcat(hunk.lines[..n - 1], [last], selected);
    assert Select([last], selected) == Picked(last, selected) + Select([], selected);
    if !IsChange(last) {
      var picked := Select(hunk.lines, selected);
      assert picked[|picked| - 1] == last;
    }
  }

  /**
    Staging a selection in a file of any number of hunks: it lands in its hunk's place exactly
    when the anchors allow it, which they do if they allow the whole hunk, and no other
    occurrence of the old side is tried earlier. Then the lines around are untouched and the
    place holds its old side edited by the selection.
   */
  lemma StageLinesIff(before: seq<string>, hunk: Hunk, after: seq<string>, selected: set<nat>)
    requires HasSelectedChange(hunk.lines, selected)
    ensures var file, f := before + OldSide(hunk.lines) + after, Selected(hunk, selected);
            && (Place(file, f) == Some(|before|)
                <==> Anchored(before, f, after) && !exists q: nat :: Earlier(file, f, q, |before|))
            && (Anchored(before, Whole(hunk), after) ==> Anchored(before, f, after))
            && (Place(file, f) == Some(|before|) ==>
                  Apply(file, f) == Some(before + Edited(OldSide(hunk.lines), hunk.lines, selected) + after))
  {
    var file, f := before + OldSide(hunk.lines) + after, Selected(hunk, selected);
    SelectKeepsOldSide(hunk.lines, selected);
    SelectEditsExactlyTheSelection(hunk.lines, selected);
    SelectedHasChange(hunk.lines, selected);
    if Anchored(before, Whole(hunk), after) {
      SelectionKeepsAnchors(before, hunk, after, selected);
    }
    LandsInPlaceIff(before, f, after);
    if Place(file, f) == Some(|before|) {
      InPlaceResult(before, f, after);
    }
    hide Place, Apply, Earlier, Anchored, OldSide, NewSide, Select, Edited, HasChange, HasSelectedChange;
  }

  lemma {:induction false} NoChangeSameSides(lines: seq<Line>)
    requires !HasChange(lines)
    ensures NewSide(lines) == OldSide(lines)
  {
    if lines == [] {
    } else {
      assert !IsChange(lines[0]);
      assert forall i :: 0 <= i < |lines| - 1 ==> lines[1..][i] == lines[i + 1];
      NoChangeSameSides(lines[1..]);
    }
  }

  /**
    Staging a selection and then what is left, under whatever starts it has by then, reaches the
    file the whole hunk reaches, if each lands in place; with nothing left it is there already.
   */
  lemma StageThenStageTheRest(
    before: seq<string>, hunk: Hunk, after: seq<string>, selected: set<nat>, rest: Fragment)
    requires rest.lines == Remaining(hunk.lines, selected)
    requires var file := before + OldSide(hunk.lines) + after;
             Place(file, Whole(hunk)) == Some(|before|) && Place(file, Selected(hunk, selected)) == Some(|before|)
    ensures var file := before + OldSide(hunk.lines) + after;
            var staged := Apply(file, Selected(hunk, selected));
            && staged.Some? && Apply(file, Whole(hunk)).Some?
            && (HasChange(rest.lines) && Place(staged.value, rest) == Some(|before|) ==>
                  Apply(staged.value, rest) == Apply(file, Whole(hunk)))
            && (!HasChange(rest.lines) ==> staged == Apply(file, Whole(hunk)))
  {
    SelectKeepsOldSide(hunk.lines, selected);
    RemainingJoinsTheSides(hunk.lines, selected);
    hide Place, Apply, OldSide, NewSide, Select, Remaining, HasChange;
    InPlaceResult(before, Selected(hunk, selected), after);
    InPlaceResult(before, Whole(hunk), after);
    var staged := before + NewSide(Select(hunk.lines, selected)) + after;
    if HasChange(rest.lines) {
      if Place(staged, rest) == Some(|before|) {
        InPlaceResult(before, rest, after);
      }
    } else {
      NoChangeSameSides(rest.lines);
    }
  }

  // --- unstaging and discarding --------------------------------------------------------

  /** With `--reverse` the two sides and the two starts change places. */
  function Backwards(f: Fragment): Fragment {
    Fragment(f.newStart, f.oldStart, Reversed(f.lines))
  }

  lemma {:induction false} ReversedLine(lines: seq<Line>, i: nat)
    requires i < |lines|
    ensures |Reversed(lines)| == |lines| && Reversed(lines)[i] == Flipped(lines[i])
  {
    if |lines| == 1 {
    } else {
      ReversedLine(lines[1..], if i > 0 then i - 1 else 0);
    }
  }

  lemma ReversedChanges(f: Fragment)
    requires HasChange(f.lines)
    ensures HasChange(Reversed(f.lines)) && (AtEnd(Backwards(f)) <==> AtEnd(f))
  {
    var i :| 0 <= i < |f.lines| && IsChange(f.lines[i]);
    ReversedLine(f.lines, i);
    assert IsChange(Reversed(f.lines)[i]);
    ReversedLine(f.lines, |f.lines| - 1);
  }

  /** A reversed hunk finds its new side exactly when no other occurrence of that is tried earlier. */
  lemma ReverseLandsInPlaceIff(before: seq<string>, f: Fragment, after: seq<string>)
    requires HasChange(f.lines)
    ensures var file := before + NewSide(f.lines) + after;
            && (Place(file, Backwards(f)) == Some(|before|)
                <==> Anchored(before, Backwards(f), after)
                     && !exists q: nat :: Earlier(file, Backwards(f), q, |before|))
            && (Place(file, Backwards(f)) == Some(|before|) ==>
                  Apply(file, Backwards(f)) == Some(before + OldSide(f.lines) + after))
  {
    ReversedSwapsSides(f.lines);
    ReversedChanges(f);
    LandsInPlaceIff(before, Backwards(f), after);
    if Place(before + NewSide(f.lines) + after, Backwards(f)) == Some(|before|) {
      InPlaceResult(before, Backwards(f), after);
    }
    hide Place, Apply, Earlier, Anchored, OldSide, NewSide, Reversed, HasChange;
  }

  /** The place a header names: the line before, when the side has no lines. */
  function StartFor(offset: nat, count: nat): nat {
    if count == 0 then offset else offset + 1
  }

  lemma {:induction false} OnlyAdditions(lines: seq<Line>)
    requires OldSide(lines) == []
    ensures forall i :: 0 <= i < |lines| ==> IsChange(lines[i])
  {
    if lines == [] {
    } else {
      assert lines[0].kind == Addition;
      OnlyAdditions(lines[1..]);
      assert forall i :: 0 < i < |lines| ==> lines[i] == lines[1..][i - 1];
    }
  }

  /**
    A whole hunk that landed in its place is undone by its own reversed patch, which lands there
    exactly if a hunk for the new side's first line has nothing before it.
   */
  lemma ReverseUndoesTheHunk(before: seq<string>, f: Fragment, after: seq<string>)
    requires HasChange(f.lines) && f.oldStart == StartFor(|before|, |OldSide(f.lines)|)
    requires Place(before + OldSide(f.lines) + after, f) == Some(|before|)
    ensures var applied := before + NewSide(f.lines) + after;
            && Apply(before + OldSide(f.lines) + after, f) == Some(applied)
            && (Place(applied, Backwards(f)) == Some(|before|) <==> (f.newStart <= 1 ==> before == []))
            && (Place(applied, Backwards(f)) == Some(|before|) ==>
                  Apply(applied, Backwards(f)) == Some(before + OldSide(f.lines) + after))
  {
    InPlaceResult(before, f, after);
    LandsInPlaceIff(before, f, after);
    ReverseLandsInPlaceIff(before, f, after);
    ReversedChanges(f);
    if f.newStart <= 1 ==> before == [] {
      BackwardsStartsThere(before, f, after);
    }
    hide Place, Apply, Earlier, OldSide, NewSide, Reversed, HasChange, AtEnd;
  }

  lemma BackwardsStartsThere(before: seq<string>, f: Fragment, after: seq<string>)
    requires HasChange(f.lines) && f.oldStart == StartFor(|before|, |OldSide(f.lines)|)
    requires Anchored(before, f, after) && (f.newStart <= 1 ==> before == [])
    ensures Anchored(before, Backwards(f), after)
    ensures !exists q: nat :: Earlier(before + NewSide(f.lines) + after, Backwards(f), q, |before|)
  {
    ReversedSwapsSides(f.lines);
    ReversedChanges(f);
    var applied := before + NewSide(f.lines) + after;
    if OldSide(f.lines) == [] {
      OnlyAdditions(f.lines);
      assert AtEnd(f);
    }
    assert FirstTry(applied, Backwards(f)) == |before|;
    hide Fits, FirstTry, OldSide, NewSide, Reversed, HasChange, AtEnd;
  }
}
