/**
  The patch as text: what the two builders print, and a reader of the unified format that
  goes by the header's counts alone (POSIX `diff`, "Diff -u or -U Output Format").
 */
module PatchText {
  import opened Options
  import opened SelectivePatch

  // --- numbers -------------------------------------------------------------------------

  predicate IsDigit(c: char) {
    '0' <= c <= '9'
  }

  function Digit(d: nat): (c: char)
    requires d < 10
    ensures IsDigit(c) && c as int == '0' as int + d
  {
    ('0' as int + d) as char
  }

  function Decimal(n: nat): (r: string)
    ensures r != "" && forall i :: 0 <= i < |r| ==> IsDigit(r[i])
  {
    if n < 10 then [Digit(n)] else Decimal(n / 10) + [Digit(n % 10)]
  }

  /** The number `text` spells after the digits already worth `value`, and what follows it. */
  function ReadDigits(text: string, value: nat): (nat, string)
    decreases |text|
  {
    if text != "" && IsDigit(text[0]) then ReadDigits(text[1..], value * 10 + (text[0] as int - '0' as int))
    else (value, text)
  }

  function ReadNat(text: string): Option<(nat, string)> {
    if text != "" && IsDigit(text[0]) then Some(ReadDigits(text, 0)) else None
  }

  predicate StartsNoDigit(text: string) {
    text == "" || !IsDigit(text[0])
  }

  function Power10(k: nat): nat {
    if k == 0 then 1 else 10 * Power10(k - 1)
  }

  lemma {:induction false} DigitsReadBack(n: nat, value: nat, rest: string)
    ensures ReadDigits(Decimal(n) + rest, value) == ReadDigits(rest, value * Power10(|Decimal(n)|) + n)
    decreases n
  {
    if n < 10 {
      assert (Decimal(n) + rest)[1..] == rest;
      assert Power10(1) == 10 * Power10(0);
    } else {
      var last := [Digit(n % 10)];
      assert Decimal(n) + rest == Decimal(n / 10) + (last + rest);
      DigitsReadBack(n / 10, value, last + rest);
      assert (last + rest)[1..] == rest;
      assert (last + rest)[0] as int - '0' as int == n % 10;
      assert |Decimal(n)| == |Decimal(n / 10)| + 1;
      OneMoreDigit(value, |Decimal(n / 10)|, n);
    }
  }

  lemma OneMoreDigit(value: nat, k: nat, n: nat)
    ensures (value * Power10(k) + n / 10) * 10 + n % 10 == value * Power10(k + 1) + n
  {
    assert value * Power10(k + 1) == value * Power10(k) * 10;
  }

  lemma NatReadsBack(n: nat, rest: string)
    requires StartsNoDigit(rest)
    ensures ReadNat(Decimal(n) + rest) == Some((n, rest))
  {
    DigitsReadBack(n, 0, rest);
  }

  // --- printing ------------------------------------------------------------------------

  /** One side's place in a header; a count of one may be left out. */
  function RangeText(start: nat, count: nat, brief: bool): string {
    if brief && count == 1 then Decimal(start) else Decimal(start) + "," + Decimal(count)
  }

  function HeaderText(oldStart: nat, oldCount: nat, newStart: nat, newCount: nat): string {
    "@@ -" + RangeText(oldStart, oldCount, false) + " +" + RangeText(newStart, newCount, false) + " @@"
  }

  /** A header as git writes it: counts of one left out or not, and a section heading at the end. */
  datatype HeaderStyle = HeaderStyle(oldBrief: bool, newBrief: bool, section: string)

  function StyledHeader(hunk: Hunk, style: HeaderStyle): string {
    "@@ -" + RangeText(hunk.oldStart, |OldSide(hunk.lines)|, style.oldBrief)
    + " +" + RangeText(hunk.newStart, |NewSide(hunk.lines)|, style.newBrief) + " @@" + style.section
  }

  function Sign(kind: Kind): char {
    match kind
    case Addition => '+'
    case Removal => '-'
    case Context => ' '
  }

  function Printed(line: Line): string {
    [Sign(line.kind)] + Terminated(line.content)
  }

  function Body(lines: seq<Line>): string {
    if lines == [] then "" else Printed(lines[0]) + Body(lines[1..])
  }

  function OldLine(oldPath: Option<string>, path: string): string {
    "--- a/" + (if oldPath.Some? then oldPath.value else path) + "\n"
  }

  function NewLine(path: string): string {
    "+++ b/" + path + "\n"
  }

  function FileHeader(oldPath: Option<string>, path: string): string {
    OldLine(oldPath, path) + NewLine(path)
  }

  function SelectiveText(path: string, oldPath: Option<string>, hunk: Hunk, selected: set<nat>): string {
    var lines := Select(hunk.lines, selected);
    FileHeader(oldPath, path)
    + (HeaderText(hunk.oldStart, |OldSide(lines)|, hunk.newStart, |NewSide(lines)|) + "\n")
    + Body(lines)
  }

  function HunkText(path: string, oldPath: Option<string>, hunk: Hunk): string {
    FileHeader(oldPath, path) + Terminated(hunk.header) + Body(hunk.lines)
  }

  lemma {:induction false} BodyConcat(a: seq<Line>, b: seq<Line>)
    ensures Body(a + b) == Body(a) + Body(b)
  {
    if a == [] {
      assert a + b == b;
    } else {
      assert (a + b)[1..] == a[1..] + b;
      BodyConcat(a[1..], b);
    }
  }

  method FormatPatchLine(prefix: char, content: string) returns (line: string)
    requires prefix != '\n'
    ensures line == [prefix] + Terminated(content)
  {
    line := [prefix] + content;
    if line[|line| - 1] != '\n' {
      line := line + "\n";
    }
  }

  function Join(parts: seq<string>): string {
    if parts == [] then "" else Join(parts[..|parts| - 1]) + parts[|parts| - 1]
  }

  lemma JoinSnoc(parts: seq<string>, i: nat)
    requires i < |parts|
    ensures Join(parts[..i + 1]) == Join(parts[..i]) + parts[i]
  {
    assert parts[..i + 1][..i] == parts[..i];
  }

  /** One more line of the hunk grows every running quantity of the builder by its share. */
  lemma SelectSnoc(lines: seq<Line>, i: nat, selected: set<nat>)
    requires i < |lines|
    ensures Select(lines[..i + 1], selected) == Select(lines[..i], selected) + Picked(lines[i], selected)
    ensures |OldSide(Select(lines[..i + 1], selected))|
            == |OldSide(Select(lines[..i], selected))| + |OldSide(Picked(lines[i], selected))|
    ensures |NewSide(Select(lines[..i + 1], selected))|
            == |NewSide(Select(lines[..i], selected))| + |NewSide(Picked(lines[i], selected))|
    ensures Body(Select(lines[..i + 1], selected))
            == Body(Select(lines[..i], selected)) + Body(Picked(lines[i], selected))
    ensures HasSelectedChange(lines[..i + 1], selected)
            <==> HasSelectedChange(lines[..i], selected) || (IsChange(lines[i]) && lines[i].index in selected)
  {
    assert lines[..i + 1] == lines[..i] + [lines[i]];
    SelectConcat(lines[..i], [lines[i]], selected);
    assert Select([lines[i]], selected) == Picked(lines[i], selected) + Select([], selected);
    OldSideConcat(Select(lines[..i], selected), Picked(lines[i], selected));
    NewSideConcat(Select(lines[..i], selected), Picked(lines[i], selected));
    BodyConcat(Select(lines[..i], selected), Picked(lines[i], selected));
    assert forall j :: 0 <= j < i ==> lines[..i + 1][j] == lines[..i][j];
    assert lines[..i + 1][i] == lines[i];
  }

  lemma NothingSelectedYet(selected: set<nat>)
    ensures Body(Select([], selected)) == ""
    ensures OldSide(Select([], selected)) == [] && NewSide(Select([], selected)) == []
    ensures !HasSelectedChange([], selected)
  {
  }

  /** The builder's loop over the hunk: the printed lines, the two counts, and whether any change is in. */
  method CollectLines(lines: seq<Line>, selected: set<nat>)
    returns (patchLines: seq<string>, oldCount: nat, newCount: nat, hasChanges: bool)
    ensures Join(patchLines) == Body(Select(lines, selected))
    ensures oldCount == |OldSide(lines)| && newCount == |NewSide(Select(lines, selected))|
    ensures hasChanges <==> HasSelectedChange(lines, selected)
  {
    NothingSelectedYet(selected);
    hide Select, OldSide, NewSide, Body, HasSelectedChange, Picked;
    patchLines, oldCount, newCount, hasChanges := [], 0, 0, false;
    assert lines[..0] == [];
    for i := 0 to |lines|
      invariant Join(patchLines) == Body(Select(lines[..i], selected))
      invariant oldCount == |OldSide(Select(lines[..i], selected))|
      invariant newCount == |NewSide(Select(lines[..i], selected))|
      invariant hasChanges <==> HasSelectedChange(lines[..i], selected)
    {
      var line := lines[i];
      SelectSnoc(lines, i, selected);
      PickedPrints(line, selected);
      ghost var before := patchLines;
      if line.kind == Addition {
        if line.index in selected {
          var text := FormatPatchLine('+', line.content);
          patchLines := patchLines + [text];
          newCount := newCount + 1;
          hasChanges := true;
        }
      } else if line.kind == Removal {
        if line.index in selected {
          var text := FormatPatchLine('-', line.content);
          patchLines := patchLines + [text];
          oldCount := oldCount + 1;
          hasChanges := true;
        } else {
          var text := FormatPatchLine(' ', line.content);
          patchLines := patchLines + [text];
          oldCount := oldCount + 1;
          newCount := newCount + 1;
        }
      } else {
        var text := FormatPatchLine(' ', line.content);
        patchLines := patchLines + [text];
        oldCount := oldCount + 1;
        newCount := newCount + 1;
      }
      assert |patchLines| > |before| ==> patchLines[..|patchLines| - 1] == before;
    }
    assert lines[..|lines|] == lines;
    SelectKeepsOldSide(lines, selected);
  }

  method PushLines(head: string, lines: seq<string>) returns (patch: string)
    ensures patch == head + Join(lines)
  {
    patch := head;
    for i := 0 to |lines|
      invariant patch == head + Join(lines[..i])
    {
      JoinSnoc(lines, i);
      patch := patch + lines[i];
    }
    assert lines[..|lines|] == lines;
  }

  /**
    The line builder: it fails exactly when no change is selected, and otherwise prints the
    selected script under a header whose counts are the lengths of the script's two sides.
   */
  method BuildSelectivePatch(path: string, oldPath: Option<string>, hunk: Hunk, selected: set<nat>)
    returns (r: Result<string, string>)
    ensures r.Ok? <==> HasSelectedChange(hunk.lines, selected)
    ensures r.Ok? ==> r.value == SelectiveText(path, oldPath, hunk, selected)
  {
    var patchLines, oldCount, newCount, hasChanges := CollectLines(hunk.lines, selected);
    if !hasChanges {
      return Err("No changes selected");
    }
    SelectKeepsOldSide(hunk.lines, selected);
    hide Select, OldSide, NewSide, Body, OldLine, NewLine, HeaderText, HasSelectedChange;
    var patch := OldLine(oldPath, path);
    patch := patch + NewLine(path);
    patch := patch + (HeaderText(hunk.oldStart, oldCount, hunk.newStart, newCount) + "\n");
    patch := PushLines(patch, patchLines);
    return Ok(patch);
  }

  /** What one picked line prints and counts. */
  lemma PickedPrints(line: Line, selected: set<nat>)
    ensures Picked(line, selected) == [] <==> line.kind == Addition && line.index !in selected
    ensures Picked(line, selected) == [] ==> Body(Picked(line, selected)) == ""
    ensures Picked(line, selected) != [] ==>
              Body(Picked(line, selected))
              == [if line.kind == Removal && line.index !in selected then ' ' else Sign(line.kind)]
                 + Terminated(line.content)
    ensures |OldSide(Picked(line, selected))| == if line.kind == Addition then 0 else 1
    ensures |NewSide(Picked(line, selected))|
            == if line.kind != Context && (line.kind == Addition) != (line.index in selected) then 0 else 1
  {
    if Picked(line, selected) != [] {
      var picked := Picked(line, selected)[0];
      assert Picked(line, selected)[1..] == [];
      assert Body([picked]) == Printed(picked) + Body([]);
    }
  }

  lemma EmptyBody()
    ensures Body([]) == ""
  {
  }

  lemma BodySnoc(lines: seq<Line>, i: nat)
    requires i < |lines|
    ensures Body(lines[..i + 1]) == Body(lines[..i]) + Printed(lines[i])
  {
    assert lines[..i + 1] == lines[..i] + [lines[i]];
    BodyConcat(lines[..i], [lines[i]]);
    assert Body([lines[i]]) == Printed(lines[i]) + Body([]);
  }

  /** Append `text`, and a newline unless it already ends in one. */
  method PushLine(patch: string, text: string) returns (longer: string)
    ensures longer == patch + Terminated(text)
  {
    longer := patch + text;
    if text == "" || text[|text| - 1] != '\n' {
      longer := longer + "\n";
    }
  }

  method BuildHunkPatch(path: string, oldPath: Option<string>, hunk: Hunk) returns (patch: string)
    ensures patch == HunkText(path, oldPath, hunk)
  {
    EmptyBody();
    hide Body, OldLine, NewLine, Terminated;
    patch := OldLine(oldPath, path);
    patch := patch + NewLine(path);
    patch := PushLine(patch, hunk.header);
    ghost var head := patch;
    assert hunk.lines[..0] == [] && patch == head + "";
    for i := 0 to |hunk.lines|
      invariant patch == head + Body(hunk.lines[..i])
    {
      BodySnoc(hunk.lines, i);
      ghost var before := patch;
      patch := patch + [Sign(hunk.lines[i].kind)];
      patch := PushLine(patch, hunk.lines[i].content);
      assert patch == before + Printed(hunk.lines[i]);
    }
    assert hunk.lines[..|hunk.lines|] == hunk.lines;
  }

  /** Selecting every change prints the whole hunk's patch, when the hunk's header is the canonical one. */
  lemma SelectingEverythingPrintsTheHunk(path: string, oldPath: Option<string>, hunk: Hunk, selected: set<nat>)
    requires SelectsEveryChange(hunk.lines, selected)
    requires hunk.header == HeaderText(hunk.oldStart, |OldSide(hunk.lines)|, hunk.newStart, |NewSide(hunk.lines)|)
    ensures SelectiveText(path, oldPath, hunk, selected) == HunkText(path, oldPath, hunk)
  {
    SelectEverything(hunk.lines, selected);
    assert hunk.header[|hunk.header| - 1] == '@';
  }

  // --- reading -------------------------------------------------------------------------

  /** `text` after `prefix`. */
  function After(text: string, prefix: string): Option<string> {
    if prefix <= text then Some(text[|prefix|..]) else None
  }

  /** The text up to the first newline, newline included, and the rest. */
  function FirstLine(text: string): Option<(string, string)>
    decreases |text|
  {
    if text == "" then None
    else if text[0] == '\n' then Some(("\n", text[1..]))
    else
      match FirstLine(text[1..])
      case None => None
      case Some((line, rest)) => Some(([text[0]] + line, rest))
  }

  datatype Signed = Signed(sign: char, text: string)

  /** Read lines until the header's counts are used up. */
  function ReadBody(text: string, oldLeft: nat, newLeft: nat): Option<(seq<Signed>, string)>
    decreases |text|
  {
    if oldLeft == 0 && newLeft == 0 then Some(([], text))
    else if text == "" then None
    else
      var onOld, onNew := text[0] != '+', text[0] != '-';
      if text[0] !in " +-" || (onOld && oldLeft == 0) || (onNew && newLeft == 0) then None
      else
        match FirstLine(text[1..])
        case None => None
        case Some((line, rest)) =>
          if |rest| >= |text| then None
          else
            match ReadBody(rest, if onOld then oldLeft - 1 else oldLeft, if onNew then newLeft - 1 else newLeft)
            case None => None
            case Some((more, end)) => Some(([Signed(text[0], line)] + more, end))
  }

  datatype Patch = Patch(
    oldPath: string, newPath: string, oldStart: nat, oldCount: nat, newStart: nat, newCount: nat,
    lines: seq<Signed>, end: string)

  /** A start and a count, which is one when it is left out. */
  function ReadPair(text: string): Option<(nat, nat, string)> {
    match ReadNat(text)
    case None => None
    case Some((start, rest)) =>
      match After(rest, ",")
      case None => Some((start, 1, rest))
      case Some(counted) =>
        match ReadNat(counted)
        case None => None
        case Some((count, end)) => Some((start, count, end))
  }

  /** The two sides' places, then a heading up to the end of the line, then the body. */
  function ReadHunk(oldPath: string, newPath: string, text: string): Option<Patch> {
    match After(text, "@@ -")
    case None => None
    case Some(oldSide) =>
      match ReadPair(oldSide)
      case None => None
      case Some((oldStart, oldCount, between)) =>
        match After(between, " +")
        case None => None
        case Some(newSide) =>
          match ReadPair(newSide)
          case None => None
          case Some((newStart, newCount, tail)) =>
            match After(tail, " @@")
            case None => None
            case Some(headed) =>
              match FirstLine(headed)
              case None => None
              case Some((_, body)) =>
                match ReadBody(body, oldCount, newCount)
                case None => None
                case Some((lines, end)) =>
                  Some(Patch(oldPath, newPath, oldStart, oldCount, newStart, newCount, lines, end))
  }

  /** The path in a file line: what stands between the prefix and the newline. */
  function ReadPath(text: string, prefix: string): Option<(string, string)> {
    match After(text, prefix)
    case None => None
    case Some(named) =>
      match FirstLine(named)
      case None => None
      case Some((line, rest)) => if line == "" then None else Some((line[..|line| - 1], rest))
  }

  function ReadPatch(text: string): Option<Patch> {
    match ReadPath(text, "--- a/")
    case None => None
    case Some((oldPath, rest)) =>
      match ReadPath(rest, "+++ b/")
      case None => None
      case Some((newPath, hunk)) => ReadHunk(oldPath, newPath, hunk)
  }

  /** A content that is one line: no newline but perhaps the last character. */
  predicate OneLine(content: string) {
    forall i :: 0 <= i < |content| - 1 ==> content[i] != '\n'
  }

  predicate OneLineEach(lines: seq<Line>) {
    forall i :: 0 <= i < |lines| ==> OneLine(lines[i].content)
  }

  function SignedLines(lines: seq<Line>): seq<Signed> {
    if lines == [] then []
    else [Signed(Sign(lines[0].kind), Terminated(lines[0].content))] + SignedLines(lines[1..])
  }

  lemma {:induction false} FirstLineReadsBack(line: string, rest: string)
    requires line != "" && line[|line| - 1] == '\n' && OneLine(line)
    ensures FirstLine(line + rest) == Some((line, rest))
  {
    assert (line + rest)[1..] == line[1..] + rest;
    if |line| == 1 {
      assert line == "\n" && line[1..] + rest == rest;
    } else {
      FirstLineReadsBack(line[1..], rest);
      assert [line[0]] + line[1..] == line;
    }
  }

  /** The reader takes one printed line and goes on with what is left of the counts. */
  lemma LineReadsBack(line: Line, tail: string, oldLeft: nat, newLeft: nat)
    requires OneLine(line.content)
    requires line.kind != Addition ==> oldLeft > 0
    requires line.kind != Removal ==> newLeft > 0
    ensures var more := ReadBody(tail, if line.kind == Addition then oldLeft else oldLeft - 1,
                                       if line.kind == Removal then newLeft else newLeft - 1);
            ReadBody(Printed(line) + tail, oldLeft, newLeft)
            == if more.None? then None
               else Some(([Signed(Sign(line.kind), Terminated(line.content))] + more.value.0, more.value.1))
  {
    var text, content := Printed(line) + tail, Terminated(line.content);
    assert text[1..] == content + tail;
    TerminatedIsALine(line.content);
    hide Terminated;
    FirstLineReadsBack(content, tail);
  }

  lemma TerminatedIsALine(content: string)
    requires OneLine(content)
    ensures Terminated(content) != "" && Terminated(content)[|Terminated(content)| - 1] == '\n'
    ensures OneLine(Terminated(content))
  {
  }

  /** The first line's share of the text, of the two sides and of the signed lines. */
  lemma FirstLineApart(lines: seq<Line>, rest: string)
    requires lines != []
    ensures Body(lines) + rest == Printed(lines[0]) + (Body(lines[1..]) + rest)
    ensures |OldSide(lines)| == (if lines[0].kind == Addition then 0 else 1) + |OldSide(lines[1..])|
    ensures |NewSide(lines)| == (if lines[0].kind == Removal then 0 else 1) + |NewSide(lines[1..])|
    ensures SignedLines(lines)
            == [Signed(Sign(lines[0].kind), Terminated(lines[0].content))] + SignedLines(lines[1..])
  {
    hide Printed, Terminated;
  }

  lemma NothingReadsBack(rest: string)
    ensures ReadBody(Body([]) + rest, |OldSide([])|, |NewSide([])|) == Some((SignedLines([]), rest))
  {
    assert Body([]) + rest == rest;
  }

  /** A reader going by the two sides' lengths recovers exactly the printed lines. */
  lemma {:induction false} BodyReadsBack(lines: seq<Line>, rest: string)
    requires OneLineEach(lines)
    ensures ReadBody(Body(lines) + rest, |OldSide(lines)|, |NewSide(lines)|) == Some((SignedLines(lines), rest))
  {
    hide ReadBody, Body, Printed, Terminated, FirstLine, OldSide, NewSide, SignedLines, Sign, OneLine;
    if lines == [] {
      NothingReadsBack(rest);
    } else {
      FirstLineApart(lines, rest);
      BodyReadsBack(lines[1..], rest);
      LineReadsBack(lines[0], Body(lines[1..]) + rest, |OldSide(lines)|, |NewSide(lines)|);
    }
  }

  lemma AfterPrefix(prefix: string, rest: string)
    ensures After(prefix + rest, prefix) == Some(rest)
  {
  }

  lemma PairReadsBack(start: nat, count: nat, brief: bool, rest: string)
    requires StartsNoDigit(rest) && !("," <= rest)
    ensures ReadPair(RangeText(start, count, brief) + rest) == Some((start, count, rest))
  {
    hide Decimal, ReadNat;
    if brief && count == 1 {
      NatReadsBack(start, rest);
    } else {
      assert Decimal(start) + "," + Decimal(count) + rest == Decimal(start) + ("," + (Decimal(count) + rest));
      NatReadsBack(start, "," + (Decimal(count) + rest));
      AfterPrefix(",", Decimal(count) + rest);
      NatReadsBack(count, rest);
    }
  }

  /** A hunk under a header of any style is read back whole. */
  lemma HunkReadsBack(oldPath: string, newPath: string, hunk: Hunk, style: HeaderStyle)
    requires OneLineEach(hunk.lines) && OneLine(style.section)
    ensures ReadHunk(oldPath, newPath, Terminated(StyledHeader(hunk, style)) + Body(hunk.lines))
            == Some(Patch(oldPath, newPath, hunk.oldStart, |OldSide(hunk.lines)|, hunk.newStart, |NewSide(hunk.lines)|,
                          SignedLines(hunk.lines), ""))
  {
    var lines := hunk.lines;
    var o, n := |OldSide(lines)|, |NewSide(lines)|;
    var oldRange := RangeText(hunk.oldStart, o, style.oldBrief);
    var newRange := RangeText(hunk.newStart, n, style.newBrief);
    var section := Terminated(style.section);
    var headed := section + Body(lines);
    HeaderApart(oldRange, newRange, style.section, Body(lines));
    TerminatedIsALine(style.section);
    hide RangeText, ReadPair, ReadBody, Body, OldSide, NewSide, FirstLine, Terminated;
    AfterPrefix("@@ -", oldRange + (" +" + (newRange + (" @@" + headed))));
    PairReadsBack(hunk.oldStart, o, style.oldBrief, " +" + (newRange + (" @@" + headed)));
    AfterPrefix(" +", newRange + (" @@" + headed));
    PairReadsBack(hunk.newStart, n, style.newBrief, " @@" + headed);
    AfterPrefix(" @@", headed);
    FirstLineReadsBack(section, Body(lines));
    BodyReadsBack(lines, "");
    assert Body(lines) + "" == Body(lines);
  }

  /** The header and the body, grouped the way the reader takes them apart. */
  lemma HeaderApart(oldRange: string, newRange: string, section: string, body: string)
    ensures Terminated("@@ -" + oldRange + " +" + newRange + " @@" + section) + body
            == "@@ -" + (oldRange + (" +" + (newRange + (" @@" + (Terminated(section) + body)))))
  {
    var head := "@@ -" + oldRange + " +" + newRange + " @@";
    assert Terminated(head + section) == head + Terminated(section) by {
      assert (head + section)[|head + section| - 1] == if section == "" then '@' else section[|section| - 1];
      assert (head + section) + "\n" == head + (section + "\n");
      assert section == "" ==> head + section == head;
    }
    Regroup(oldRange, newRange, Terminated(section), body);
  }

  lemma Regroup(a: string, b: string, c: string, body: string)
    ensures ("@@ -" + a + " +" + b + " @@" + c) + body == "@@ -" + (a + (" +" + (b + (" @@" + (c + body)))))
  {
    assert ("@@ -" + a + " +" + b + " @@" + c) + body == "@@ -" + a + " +" + b + " @@" + (c + body);
    assert "@@ -" + a + " +" + b + " @@" + (c + body) == "@@ -" + a + (" +" + (b + (" @@" + (c + body))));
  }

  lemma Regroup3(a: string, b: string, c: string, d: string)
    ensures (a + b) + c + d == a + (b + (c + d))
  {
  }

  lemma {:induction false} SelectKeepsOneLine(lines: seq<Line>, selected: set<nat>)
    requires OneLineEach(lines)
    ensures OneLineEach(Select(lines, selected))
  {
    if lines == [] {
    } else {
      assert OneLine(lines[0].content);
      SelectKeepsOneLine(lines[1..], selected);
    }
  }

  lemma PathReadsBack(prefix: string, path: string, rest: string)
    requires '\n' !in path
    ensures ReadPath(prefix + path + "\n" + rest, prefix) == Some((path, rest))
  {
    assert prefix + path + "\n" + rest == prefix + (path + "\n" + rest);
    AfterPrefix(prefix, path + "\n" + rest);
    FirstLineReadsBack(path + "\n", rest);
    assert (path + "\n")[..|path + "\n"| - 1] == path;
  }

  /** The two paths, the places, the counts and the lines come back, and nothing is left over. */
  lemma PatchReadsBack(path: string, oldPath: Option<string>, hunk: Hunk, style: HeaderStyle)
    requires OneLineEach(hunk.lines) && OneLine(style.section)
    requires '\n' !in path && (oldPath.Some? ==> '\n' !in oldPath.value)
    ensures ReadPatch(FileHeader(oldPath, path) + Terminated(StyledHeader(hunk, style)) + Body(hunk.lines))
            == Some(Patch(if oldPath.Some? then oldPath.value else path, path,
                          hunk.oldStart, |OldSide(hunk.lines)|, hunk.newStart, |NewSide(hunk.lines)|,
                          SignedLines(hunk.lines), ""))
  {
    var named := if oldPath.Some? then oldPath.value else path;
    var header := Terminated(StyledHeader(hunk, style));
    var text := header + Body(hunk.lines);
    Regroup3(OldLine(oldPath, path), NewLine(path), header, Body(hunk.lines));
    hide OldSide, NewSide, Body, StyledHeader, ReadHunk, ReadPath, Terminated;
    PathReadsBack("--- a/", named, NewLine(path) + text);
    PathReadsBack("+++ b/", path, text);
    HunkReadsBack(named, path, hunk, style);
  }

  /** The header the line builder writes is one of those styles. */
  lemma PlainStyle(hunk: Hunk)
    ensures Terminated(StyledHeader(hunk, HeaderStyle(false, false, "")))
            == HeaderText(hunk.oldStart, |OldSide(hunk.lines)|, hunk.newStart, |NewSide(hunk.lines)|) + "\n"
  {
    hide RangeText, OldSide, NewSide;
    var header := HeaderText(hunk.oldStart, |OldSide(hunk.lines)|, hunk.newStart, |NewSide(hunk.lines)|);
    assert StyledHeader(hunk, HeaderStyle(false, false, "")) == header;
    assert header[|header| - 1] == '@';
  }

  /**
    Reading the emitted text by its header alone gives back exactly the selected script, its
    counts and places, and stops at the end of the text.
   */
  lemma SelectiveTextReadsBack(path: string, oldPath: Option<string>, hunk: Hunk, selected: set<nat>)
    requires OneLineEach(hunk.lines)
    requires '\n' !in path && (oldPath.Some? ==> '\n' !in oldPath.value)
    ensures var lines := Select(hunk.lines, selected);
            ReadPatch(SelectiveText(path, oldPath, hunk, selected))
            == Some(Patch(if oldPath.Some? then oldPath.value else path, path,
                          hunk.oldStart, |OldSide(hunk.lines)|, hunk.newStart, |NewSide(lines)|,
                          SignedLines(lines), ""))
  {
    SelectKeepsOldSide(hunk.lines, selected);
    SelectKeepsOneLine(hunk.lines, selected);
    var picked := hunk.(lines := Select(hunk.lines, selected));
    PlainStyle(picked);
    PatchReadsBack(path, oldPath, picked, HeaderStyle(false, false, ""));
    hide Select, OldSide, NewSide, Body, HeaderText, StyledHeader, FileHeader, OldLine, NewLine, ReadPatch, Terminated;
  }

  /** The header states the hunk's own places and counts, in one of git's styles. */
  ghost predicate FromGit(hunk: Hunk) {
    exists style: HeaderStyle :: OneLine(style.section) && hunk.header == StyledHeader(hunk, style)
  }

  /** The whole hunk's text reads back as the whole hunk, whatever the style of its header. */
  lemma HunkTextReadsBack(path: string, oldPath: Option<string>, hunk: Hunk)
    requires OneLineEach(hunk.lines) && FromGit(hunk)
    requires '\n' !in path && (oldPath.Some? ==> '\n' !in oldPath.value)
    ensures ReadPatch(HunkText(path, oldPath, hunk))
            == Some(Patch(if oldPath.Some? then oldPath.value else path, path,
                          hunk.oldStart, |OldSide(hunk.lines)|, hunk.newStart, |NewSide(hunk.lines)|,
                          SignedLines(hunk.lines), ""))
  {
    var style: HeaderStyle :| OneLine(style.section) && hunk.header == StyledHeader(hunk, style);
    PatchReadsBack(path, oldPath, hunk, style);
    hide OldSide, NewSide, Body, StyledHeader, FileHeader, OldLine, NewLine, ReadPatch, Terminated;
  }

  /** Selecting every change reads like the whole hunk, whatever the style of its header. */
  lemma SelectingEverythingReadsLikeTheHunk(path: string, oldPath: Option<string>, hunk: Hunk, selected: set<nat>)
    requires OneLineEach(hunk.lines) && FromGit(hunk) && SelectsEveryChange(hunk.lines, selected)
    requires '\n' !in path && (oldPath.Some? ==> '\n' !in oldPath.value)
    ensures ReadPatch(SelectiveText(path, oldPath, hunk, selected)) == ReadPatch(HunkText(path, oldPath, hunk))
  {
    SelectEverything(hunk.lines, selected);
    SelectiveTextReadsBack(path, oldPath, hunk, selected);
    HunkTextReadsBack(path, oldPath, hunk);
    hide *;
  }
}
