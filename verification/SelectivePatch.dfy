/**
  Line staging: a hunk is an edit script, and a selection of its lines is turned into a smaller
  script over the same old side.
 */
module SelectivePatch {
  import opened Options

  datatype Kind = Addition | Removal | Context

  datatype Line = Line(kind: Kind, content: string, index: nat)

  datatype Hunk = Hunk(
    header: string, lines: seq<Line>, oldStart: nat, oldCount: nat, newStart: nat, newCount: nat)

  /** A line as it stands in a file: newline-terminated. */
  function Terminated(content: string): string {
    if content != "" && content[|content| - 1] == '\n' then content else content + "\n"
  }

  function OldSide(lines: seq<Line>): seq<string> {
    if lines == [] then []
    else (if lines[0].kind == Addition then [] else [Terminated(lines[0].content)]) + OldSide(lines[1..])
  }

  function NewSide(lines: seq<Line>): seq<string> {
    if lines == [] then []
    else (if lines[0].kind == Removal then [] else [Terminated(lines[0].content)]) + NewSide(lines[1..])
  }

  /** What the builder makes of one line: an unselected removal stays as context. */
  function Picked(line: Line, selected: set<nat>): seq<Line> {
    match line.kind
    case Addition => if line.index in selected then [line] else []
    case Removal => if line.index in selected then [line] else [line.(kind := Context)]
    case Context => [line]
  }

  function Select(lines: seq<Line>, selected: set<nat>): seq<Line> {
    if lines == [] then [] else Picked(lines[0], selected) + Select(lines[1..], selected)
  }

  predicate IsChange(line: Line) {
    line.kind != Context
  }

  predicate HasSelectedChange(lines: seq<Line>, selected: set<nat>) {
    exists i :: 0 <= i < |lines| && IsChange(lines[i]) && lines[i].index in selected
  }

  lemma {:induction false} OldSideConcat(a: seq<Line>, b: seq<Line>)
    ensures OldSide(a + b) == OldSide(a) + OldSide(b)
  {
    if a == [] {
      assert a + b == b;
    } else {
      assert (a + b)[1..] == a[1..] + b;
      OldSideConcat(a[1..], b);
    }
  }

  lemma {:induction false} NewSideConcat(a: seq<Line>, b: seq<Line>)
    ensures NewSide(a + b) == NewSide(a) + NewSide(b)
  {
    if a == [] {
      assert a + b == b;
    } else {
      assert (a + b)[1..] == a[1..] + b;
      NewSideConcat(a[1..], b);
    }
  }

  lemma {:induction false} SelectConcat(a: seq<Line>, b: seq<Line>, selected: set<nat>)
    ensures Select(a + b, selected) == Select(a, selected) + Select(b, selected)
  {
    if a == [] {
      assert a + b == b;
    } else {
      assert (a + b)[1..] == a[1..] + b;
      SelectConcat(a[1..], b, selected);
    }
  }

  /** The selective patch is written against the very lines the hunk is written against. */
  lemma {:induction false} SelectKeepsOldSide(lines: seq<Line>, selected: set<nat>)
    ensures OldSide(Select(lines, selected)) == OldSide(lines)
  {
    if lines == [] {
    } else {
      SelectKeepsOldSide(lines[1..], selected);
      OldSideConcat(Picked(lines[0], selected), Select(lines[1..], selected));
      assert OldSide(Picked(lines[0], selected)) == OldSide([lines[0]]);
      assert OldSide(lines) == OldSide([lines[0]]) + OldSide(lines[1..]) by {
        OldSideConcat([lines[0]], lines[1..]);
        assert [lines[0]] + lines[1..] == lines;
      }
    }
  }

  /**
    The reference: walk the old text with the hunk beside it, dropping a line for a selected
    removal and adding one for a selected addition. Kept lines come from the text itself.
   */
  function Edited(text: seq<string>, lines: seq<Line>, selected: set<nat>): seq<string>
    decreases |lines|
  {
    if lines == [] then text
    else
      var rest := lines[1..];
      match lines[0].kind
      case Addition =>
        (if lines[0].index in selected then [Terminated(lines[0].content)] else []) + Edited(text, rest, selected)
      case Removal =>
        if text == [] then []
        else (if lines[0].index in selected then [] else [text[0]]) + Edited(text[1..], rest, selected)
      case Context =>
        if text == [] then [] else [text[0]] + Edited(text[1..], rest, selected)
  }

  /** The new side is the old side with exactly the selected removals and additions made. */
  lemma {:induction false} SelectEditsExactlyTheSelection(lines: seq<Line>, selected: set<nat>)
    ensures NewSide(Select(lines, selected)) == Edited(OldSide(lines), lines, selected)
  {
    if lines == [] {
    } else {
      SelectEditsExactlyTheSelection(lines[1..], selected);
      NewSideConcat(Picked(lines[0], selected), Select(lines[1..], selected));
      if lines[0].kind == Addition {
        assert OldSide(lines) == OldSide(lines[1..]);
      } else {
        assert OldSide(lines)[0] == Terminated(lines[0].content);
        assert OldSide(lines)[1..] == OldSide(lines[1..]);
      }
      assert NewSide(Picked(lines[0], selected))
             == if lines[0].kind != Context && (lines[0].kind == Addition) != (lines[0].index in selected) then []
                else [Terminated(lines[0].content)];
    }
  }

  predicate SelectsEveryChange(lines: seq<Line>, selected: set<nat>) {
    forall i :: 0 <= i < |lines| && IsChange(lines[i]) ==> lines[i].index in selected
  }

  lemma {:induction false} SelectEverything(lines: seq<Line>, selected: set<nat>)
    requires SelectsEveryChange(lines, selected)
    ensures Select(lines, selected) == lines
  {
    if lines == [] {
    } else {
      SelectEverything(lines[1..], selected);
      assert Picked(lines[0], selected) == [lines[0]];
    }
  }

  // --- what is left to stage -----------------------------------------------------------

  /** The change still separating the staged lines from the hunk's new side. */
  function LeftOf(line: Line, selected: set<nat>): seq<Line> {
    match line.kind
    case Addition => if line.index in selected then [line.(kind := Context)] else [line]
    case Removal => if line.index in selected then [] else [line]
    case Context => [line]
  }

  function Remaining(lines: seq<Line>, selected: set<nat>): seq<Line> {
    if lines == [] then [] else LeftOf(lines[0], selected) + Remaining(lines[1..], selected)
  }

  /** What is left starts from the staged lines and ends at the hunk's new side. */
  lemma {:induction false} RemainingJoinsTheSides(lines: seq<Line>, selected: set<nat>)
    ensures OldSide(Remaining(lines, selected)) == NewSide(Select(lines, selected))
    ensures NewSide(Remaining(lines, selected)) == NewSide(lines)
  {
    if lines == [] {
    } else {
      RemainingJoinsTheSides(lines[1..], selected);
      OldSideConcat(LeftOf(lines[0], selected), Remaining(lines[1..], selected));
      NewSideConcat(LeftOf(lines[0], selected), Remaining(lines[1..], selected));
      NewSideConcat(Picked(lines[0], selected), Select(lines[1..], selected));
      OneLineJoins(lines[0], lines[1..], selected);
    }
  }

  lemma OneLineJoins(line: Line, rest: seq<Line>, selected: set<nat>)
    ensures OldSide(LeftOf(line, selected)) == NewSide(Picked(line, selected))
    ensures NewSide([line] + rest) == NewSide(LeftOf(line, selected)) + NewSide(rest)
  {
    assert ([line] + rest)[1..] == rest;
    assert NewSide(LeftOf(line, selected)) == NewSide([line]);
    NewSideConcat([line], rest);
  }

  /** Staging `first` and then `second` of what is left is staging both at once. */
  lemma {:induction false} StagingComposes(lines: seq<Line>, first: set<nat>, second: set<nat>)
    ensures NewSide(Select(Remaining(lines, first), second)) == NewSide(Select(lines, first + second))
  {
    if lines == [] {
    } else {
      StagingComposes(lines[1..], first, second);
      var line, rest := lines[0], Remaining(lines[1..], first);
      SelectConcat(LeftOf(line, first), rest, second);
      NewSideConcat(Select(LeftOf(line, first), second), Select(rest, second));
      NewSideConcat(Picked(line, first + second), Select(lines[1..], first + second));
      OneLineComposes(line, first, second);
    }
  }

  lemma OneLineComposes(line: Line, first: set<nat>, second: set<nat>)
    ensures NewSide(Select(LeftOf(line, first), second)) == NewSide(Picked(line, first + second))
  {
    if LeftOf(line, first) != [] {
      var left := LeftOf(line, first)[0];
      assert Select([left], second) == Picked(left, second) + Select([], second);
    }
  }

  // --- reversal ------------------------------------------------------------------------

  function Flipped(line: Line): Line {
    match line.kind
    case Addition => line.(kind := Removal)
    case Removal => line.(kind := Addition)
    case Context => line
  }

  function Reversed(lines: seq<Line>): seq<Line> {
    if lines == [] then [] else [Flipped(lines[0])] + Reversed(lines[1..])
  }

  lemma {:induction false} ReversedSwapsSides(lines: seq<Line>)
    ensures OldSide(Reversed(lines)) == NewSide(lines)
    ensures NewSide(Reversed(lines)) == OldSide(lines)
  {
    if lines == [] {
    } else {
      ReversedSwapsSides(lines[1..]);
      assert Reversed(lines)[1..] == Reversed(lines[1..]);
    }
  }
}
