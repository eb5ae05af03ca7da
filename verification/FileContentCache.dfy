/**
  Counting, decoding and slicing a file's lines, and the bounded cache in front of them.

  A source names fixed contents: a blob by its id, a working file by path, time and length.
 */
module FileContentCache {
  import opened Bytes
  import opened Integers
  import opened Options
  import Utf8

  const NEWLINE := 10
  const RETURN := 13
  const FILE_CONTENT_CACHE_LIMIT: nat := 256

  type Text = seq<int>

  // --- lines ---------------------------------------------------------------------------

  function Newlines(s: Text): nat {
    if s == [] then 0 else (if s[0] == NEWLINE then 1 else 0) + Newlines(s[1..])
  }

  /** The count taken from the raw bytes; the counter is 32 bits wide and wraps. */
  function CountLines(bytes: seq<Byte>): nat {
    if bytes == [] then 0
    else
      var newlines := Newlines(bytes) % U32;
      if bytes[|bytes| - 1] == NEWLINE then newlines else (newlines + 1) % U32
  }

  /** The position of the first newline, or the length of a text without one. */
  function LineLength(s: Text): (n: nat)
    ensures n <= |s|
    ensures forall i :: 0 <= i < n ==> s[i] != NEWLINE
    ensures n < |s| ==> s[n] == NEWLINE
  {
    if s == [] || s[0] == NEWLINE then 0 else 1 + LineLength(s[1..])
  }

  /** A carriage return right before the newline belongs to the line break. */
  function WithoutReturn(line: Text): Text {
    if line != [] && line[|line| - 1] == RETURN then line[..|line| - 1] else line
  }

  function Lines(s: Text): seq<Text>
    decreases |s|
  {
    if s == [] then []
    else
      var n := LineLength(s);
      if n == |s| then [s] else [WithoutReturn(s[..n])] + Lines(s[n + 1..])
  }

  function DecodeLines(bytes: seq<Byte>): seq<Text> {
    Lines(Utf8.DecodeLossy(bytes))
  }

  /** One more than the newlines, unless the text ends with one. */
  ghost function LineCount(s: Text): nat {
    if s == [] then 0 else Newlines(s) + if s[|s| - 1] == NEWLINE then 0 else 1
  }

  lemma LineCountFromTheFront(s: Text)
    requires s != []
    ensures LineCount(s) == if |s| == 1 then 1 else (if s[0] == NEWLINE then 1 else 0) + LineCount(s[1..])
  {
    assert |s| == 1 ==> s[1..] == [] && Newlines(s[1..]) == 0;
    assert |s| > 1 ==> s[1..][|s| - 2] == s[|s| - 1];
  }

  lemma {:induction false} LineCountSkips(s: Text, n: nat)
    requires 0 < n <= |s| && forall i :: 0 <= i < n ==> s[i] != NEWLINE
    ensures LineCount(s) == if n == |s| then 1 else LineCount(s[n..])
  {
    LineCountFromTheFront(s);
    if n <= 1 {
    } else {
      LineCountSkips(s[1..], n - 1);
      assert s[1..][n - 1..] == s[n..];
    }
  }

  lemma {:induction false} LinesCounted(s: Text)
    ensures |Lines(s)| == LineCount(s)
    decreases |s|
  {
    if s == [] {
    } else {
      var n := LineLength(s);
      if n > 0 {
        LineCountSkips(s, n);
      }
      if n < |s| {
        LineCountFromTheFront(s[n..]);
        assert s[n..][1..] == s[n + 1..];
        LinesCounted(s[n + 1..]);
      }
    }
  }

  /** Decoding turns the first `n` bytes into one character, and only a newline into a newline. */
  lemma DecodesOneCharacter(bytes: seq<Byte>) returns (n: nat)
    requires bytes != []
    ensures 0 < n <= |bytes|
    ensures Utf8.DecodeLossy(bytes) != [] && Utf8.DecodeLossy(bytes)[1..] == Utf8.DecodeLossy(bytes[n..])
    ensures Utf8.DecodeLossy(bytes)[0] == NEWLINE <==> bytes[0] == NEWLINE
    ensures if bytes[0] == NEWLINE then n == 1 else forall i :: 0 <= i < n ==> bytes[i] != NEWLINE
  {
    n := if Utf8.CharLength(bytes) > 0 then Utf8.CharLength(bytes) else Utf8.IllFormedLength(bytes);
    assert Utf8.DecodeLossy(bytes)[1..] == Utf8.DecodeLossy(bytes[n..]);
  }

  lemma {:induction false} DecodingKeepsLineCount(bytes: seq<Byte>)
    ensures LineCount(Utf8.DecodeLossy(bytes)) == LineCount(bytes)
    decreases |bytes|
  {
    if bytes == [] {
    } else {
      hide LineCount, Utf8.DecodeLossy;
      var n := DecodesOneCharacter(bytes);
      var text, rest := Utf8.DecodeLossy(bytes), bytes[n..];
      DecodingKeepsLineCount(rest);
      DecodedEmptyIff(rest);
      LineCountFromTheFront(text);
      if bytes[0] == NEWLINE {
        LineCountFromTheFront(bytes);
      } else {
        LineCountSkips(bytes, n);
      }
    }
  }

  lemma DecodedEmptyIff(bytes: seq<Byte>)
    ensures Utf8.DecodeLossy(bytes) == [] <==> bytes == []
  {
  }

  lemma WrappingAddsOne(n: nat)
    ensures (n % U32 + 1) % U32 == (n + 1) % U32
  {
    var q, r := n / U32, n % U32;
    assert n + 1 == if r + 1 < U32 then U32 * q + (r + 1) else U32 * (q + 1);
  }

  /** For every byte string the count from the bytes is the number of decoded lines (as a `u32`). */
  lemma CountIsTheNumberOfLines(bytes: seq<Byte>)
    ensures CountLines(bytes) == |DecodeLines(bytes)| % U32
  {
    hide Newlines, Lines, Utf8.DecodeLossy;
    DecodingKeepsLineCount(bytes);
    LinesCounted(Utf8.DecodeLossy(bytes));
    WrappingAddsOne(Newlines(bytes));
  }

  /** `lines`, each ended by a newline. */
  function JoinedLines(lines: seq<Text>): Text {
    if lines == [] then [] else lines[0] + [NEWLINE] + JoinedLines(lines[1..])
  }

  lemma LineLengthIs(s: Text, n: nat)
    requires n <= |s| && (forall i :: 0 <= i < n ==> s[i] != NEWLINE) && (n < |s| ==> s[n] == NEWLINE)
    ensures LineLength(s) == n
  {
  }

  lemma FirstLine(line: Text, rest: Text)
    requires NEWLINE !in line
    ensures Lines(line + [NEWLINE] + rest) == [WithoutReturn(line)] + Lines(rest)
  {
    var text := line + [NEWLINE] + rest;
    LineLengthIs(text, |line|);
    assert text[..|line|] == line && text[|line| + 1..] == rest;
  }

  /** A line break is a newline with the one carriage return right before it, if there is one. */
  lemma LineBreaks(line: Text, rest: Text)
    requires 10 !in line
    ensures Lines(line + [13, 10] + rest) == [line] + Lines(rest)
    ensures (line == [] || line[|line| - 1] != 13) ==> Lines(line + [10] + rest) == [line] + Lines(rest)
    ensures line != [] ==> Lines(line) == [line]
  {
    FirstLine(line + [13], rest);
    assert (line + [13]) + [10] + rest == line + [13, 10] + rest;
    assert (line + [13])[..|line|] == line;
    FirstLine(line, rest);
    LineLengthIs(line, |line|);
  }

  /** Lines without a newline or a final carriage return are read back as they are. */
  lemma {:induction false} LinesReadBack(lines: seq<Text>)
    requires forall l :: l in lines ==> 10 !in l && (l == [] || l[|l| - 1] != 13)
    ensures Lines(JoinedLines(lines)) == lines
  {
    hide Lines;
    if lines == [] {
      NoLines();
    } else {
      LineBreaks(lines[0], JoinedLines(lines[1..]));
      LinesReadBack(lines[1..]);
    }
  }

  lemma NoLines()
    ensures Lines([]) == []
  {
  }

  function SliceLines(lines: seq<Text>, startLine: nat, lineCount: nat): seq<Text> {
    if startLine == 0 || lineCount == 0 || startLine - 1 >= |lines| then []
    else
      var start := startLine - 1;
      lines[start..if start + lineCount < |lines| then start + lineCount else |lines|]
  }

  /** A slice holds exactly the lines numbered from `startLine` on, as far as there are any. */
  lemma SliceHoldsTheNumberedLines(lines: seq<Text>, startLine: nat, lineCount: nat, k: nat)
    ensures startLine == 0 ==> SliceLines(lines, startLine, lineCount) == []
    ensures startLine > 0 ==>
              (k < |SliceLines(lines, startLine, lineCount)| <==> k < lineCount && startLine + k <= |lines|)
    ensures startLine > 0 && k < |SliceLines(lines, startLine, lineCount)| ==>
              SliceLines(lines, startLine, lineCount)[k] == lines[startLine + k - 1]
  {
  }

  /** Adjacent slices join to one. */
  lemma SlicesTile(lines: seq<Text>, startLine: nat, n: nat, m: nat)
    requires startLine > 0
    ensures SliceLines(lines, startLine, n) + SliceLines(lines, startLine + n, m) == SliceLines(lines, startLine, n + m)
  {
  }

  // --- the cache -----------------------------------------------------------------------

  datatype Source = Missing | Blob(oid: nat) | Workdir(fullPath: string, modifiedNanos: nat, len: nat)

  datatype Entry = Entry(lineCount: nat, lines: Option<seq<Text>>)

  type Entries = map<Source, Entry>

  /** The entry says what counting and decoding `bytes` say. */
  ghost predicate EntryOf(entry: Entry, bytes: seq<Byte>) {
    && entry.lineCount == CountLines(bytes)
    && (entry.lines.Some? ==> entry.lines.value == DecodeLines(bytes))
  }

  ghost predicate Consistent(entries: Entries, contents: Source -> seq<Byte>) {
    && |entries| <= FILE_CONTENT_CACHE_LIMIT
    && forall s :: s in entries ==> EntryOf(entries[s], contents(s))
  }

  function Stored(entries: Entries, source: Source, entry: Entry): Entries {
    (if |entries| >= FILE_CONTENT_CACHE_LIMIT && source !in entries then map[] else entries)[source := entry]
  }

  lemma StoringKeepsConsistent(entries: Entries, contents: Source -> seq<Byte>, source: Source, entry: Entry)
    requires Consistent(entries, contents) && EntryOf(entry, contents(source))
    ensures Consistent(Stored(entries, source, entry), contents)
  {
    hide EntryOf;
    var kept := if |entries| >= FILE_CONTENT_CACHE_LIMIT && source !in entries then map[] else entries;
    assert kept[source := entry].Keys == kept.Keys + {source};
    assert source in kept ==> kept.Keys + {source} == kept.Keys;
    assert |kept[source := entry].Keys| <= FILE_CONTENT_CACHE_LIMIT;
  }

  /** Every other entry stays, unless the cache was full and the key new: then all of them go. */
  lemma StoringKeepsTheOthers(entries: Entries, source: Source, entry: Entry, other: Source)
    requires other != source
    ensures other in Stored(entries, source, entry)
            <==> other in entries && (|entries| < 256 || source in entries)
    ensures other in Stored(entries, source, entry) ==> Stored(entries, source, entry)[other] == entries[other]
  {
  }

  datatype Query = Count | Slice(startLine: nat, lineCount: nat)

  datatype Answer = Number(count: nat) | Slab(lines: seq<Text>) | Failed

  /** The answer a reader without a cache gives. */
  ghost function Direct(query: Query, bytes: seq<Byte>): Answer {
    match query
    case Count => Number(CountLines(bytes))
    case Slice(startLine, lineCount) => Slab(SliceLines(DecodeLines(bytes), startLine, lineCount))
  }

  /** The answer held in the cache, if it holds one for this query. */
  function Cached(entries: Entries, query: Query, source: Source): Option<Answer> {
    if source !in entries then None
    else match query
      case Count => Some(Number(entries[source].lineCount))
      case Slice(startLine, lineCount) =>
        if entries[source].lines.None? then None
        else Some(Slab(SliceLines(entries[source].lines.value, startLine, lineCount)))
  }

  /** What a query that had to read leaves behind. */
  function Filling(query: Query, bytes: seq<Byte>): Entry {
    match query
    case Count => Entry(CountLines(bytes), None)
    case Slice(_, _) => var lines := DecodeLines(bytes); Entry(|lines| % U32, Some(lines))
  }

  lemma FillingIsRight(query: Query, bytes: seq<Byte>)
    ensures EntryOf(Filling(query, bytes), bytes)
  {
    CountIsTheNumberOfLines(bytes);
    hide CountLines, DecodeLines;
  }

  lemma CachedIsDirect(entries: Entries, contents: Source -> seq<Byte>, query: Query, source: Source)
    requires Consistent(entries, contents) && Cached(entries, query, source).Some?
    ensures Cached(entries, query, source).value == Direct(query, contents(source))
  {
    hide CountLines, DecodeLines, SliceLines;
    assert EntryOf(entries[source], contents(source));
  }

  /** Reading a source: a missing file reads as empty, anything else may fail. */
  ghost predicate ReadOf(read: Result<seq<Byte>, string>, source: Source, contents: Source -> seq<Byte>) {
    && (read.Ok? ==> read.value == contents(source))
    && (source.Missing? ==> read == Ok([]))
  }

  class Cache {
    var entries: Entries

    constructor ()
      ensures entries == map[]
    {
      entries := map[];
    }

    method Store(source: Source, entry: Entry)
      modifies this
      ensures entries == Stored(old(entries), source, entry)
    {
      if |entries| >= FILE_CONTENT_CACHE_LIMIT && source !in entries {
        entries := map[];
      }
      entries := entries[source := entry];
    }

    /** The count the bytes have, from the cache or read; it fails only when a needed read does. */
    method CountLinesForSource(source: Source, read: Result<seq<Byte>, string>, ghost contents: Source -> seq<Byte>)
      returns (r: Result<nat, string>)
      requires Consistent(entries, contents) && ReadOf(read, source, contents)
      modifies this
      ensures Consistent(entries, contents)
      ensures r.Err? <==> source !in old(entries) && read.Err?
      ensures r.Ok? ==> r.value == CountLines(contents(source)) && source in entries
      ensures r.Err? ==> r.error == read.error && entries == old(entries)
      ensures source in old(entries) ==> entries == old(entries)
      ensures source !in old(entries) && read.Ok? ==>
                entries == Stored(old(entries), source, Filling(Count, read.value))
    {
      hide CountLines, DecodeLines, Stored;
      if source in entries {
        assert EntryOf(entries[source], contents(source));
        return Ok(entries[source].lineCount);
      }
      if read.Err? {
        return Err(read.error);
      }
      var lineCount := CountLines(read.value);
      StoringKeepsConsistent(entries, contents, source, Entry(lineCount, None));
      Store(source, Entry(lineCount, None));
      StoredHolds(old(entries), source, Entry(lineCount, None));
      return Ok(lineCount);
    }

    /** The lines asked for; an entry left by a count holds none and is replaced by a read. */
    method SliceLinesForSource(
      source: Source, startLine: nat, lineCount: nat, read: Result<seq<Byte>, string>,
      ghost contents: Source -> seq<Byte>)
      returns (r: Result<seq<Text>, string>)
      requires Consistent(entries, contents) && ReadOf(read, source, contents)
      modifies this
      ensures Consistent(entries, contents)
      ensures r.Err? <==> !(source in old(entries) && old(entries)[source].lines.Some?) && read.Err?
      ensures r.Ok? ==>
                && r.value == SliceLines(DecodeLines(contents(source)), startLine, lineCount)
                && source in entries && entries[source].lines.Some?
      ensures r.Err? ==> r.error == read.error && entries == old(entries)
      ensures r.Ok? ==>
                entries == if source in old(entries) && old(entries)[source].lines.Some? then old(entries)
                           else Stored(old(entries), source, Filling(Slice(startLine, lineCount), contents(source)))
    {
      hide CountLines, DecodeLines, Stored, SliceLines;
      if source in entries && entries[source].lines.Some? {
        assert EntryOf(entries[source], contents(source));
        return Ok(SliceLines(entries[source].lines.value, startLine, lineCount));
      }
      if read.Err? {
        return Err(read.error);
      }
      var lines := DecodeLines(read.value);
      var entry := Entry(|lines| % U32, Some(lines));
      FillingIsRight(Slice(startLine, lineCount), read.value);
      StoringKeepsConsistent(entries, contents, source, entry);
      Store(source, entry);
      StoredHolds(old(entries), source, entry);
      return Ok(SliceLines(lines, startLine, lineCount));
    }
  }

  lemma StoredHolds(entries: Entries, source: Source, entry: Entry)
    ensures source in Stored(entries, source, entry) && Stored(entries, source, entry)[source] == entry
  {
  }

  // --- concurrent queries --------------------------------------------------------------

  datatype Request = Request(query: Query, source: Source)

  /** What the query of thread `id` was told. */
  datatype Reply = Reply(id: nat, request: Request, answer: Answer)

  /**
    Queries in flight: the cache is locked for a lookup and again for the insert, and is free
    in between while the source is read.
   */
  datatype State = State(entries: Entries, reading: map<nat, Request>, replies: seq<Reply>)

  datatype Step =
    | Ask(id: nat, request: Request)
    | ReadDone(id: nat)
    | ReadFailed(id: nat)

  function Next(s: State, step: Step, contents: Source -> seq<Byte>): State {
    match step
    case Ask(id, request) =>
      if id in s.reading then s
      else
        var hit := Cached(s.entries, request.query, request.source);
        if hit.Some? then s.(replies := s.replies + [Reply(id, request, hit.value)])
        else s.(reading := s.reading[id := request])
    case ReadDone(id) =>
      if id !in s.reading then s
      else
        var request, bytes := s.reading[id], contents(s.reading[id].source);
        State(
          Stored(s.entries, request.source, Filling(request.query, bytes)),
          s.reading - {id},
          s.replies + [Reply(id, request, ReadAnswer(request.query, bytes))])
    case ReadFailed(id) =>
      if id !in s.reading || s.reading[id].source.Missing? then s
      else State(s.entries, s.reading - {id}, s.replies + [Reply(id, s.reading[id], Failed)])
  }

  function ReadAnswer(query: Query, bytes: seq<Byte>): Answer {
    match query
    case Count => Number(Filling(query, bytes).lineCount)
    case Slice(startLine, lineCount) => Slab(SliceLines(Filling(query, bytes).lines.value, startLine, lineCount))
  }

  function Run(s: State, steps: seq<Step>, contents: Source -> seq<Byte>): State
    decreases |steps|
  {
    if steps == [] then s else Run(Next(s, steps[0], contents), steps[1..], contents)
  }

  /** The answer is the uncached one, or reports a failed read (never of a missing file). */
  ghost predicate Faithful(reply: Reply, contents: Source -> seq<Byte>) {
    || reply.answer == Direct(reply.request.query, contents(reply.request.source))
    || (reply.answer.Failed? && !reply.request.source.Missing?)
  }

  ghost predicate AllFaithful(replies: seq<Reply>, contents: Source -> seq<Byte>) {
    forall r :: r in replies ==> Faithful(r, contents)
  }

  lemma StepIsFaithful(s: State, step: Step, contents: Source -> seq<Byte>)
    requires Consistent(s.entries, contents) && AllFaithful(s.replies, contents)
    ensures Consistent(Next(s, step, contents).entries, contents)
    ensures AllFaithful(Next(s, step, contents).replies, contents)
  {
    hide CountLines, DecodeLines, SliceLines, Consistent, EntryOf, Stored;
    match step
    case Ask(id, request) =>
      if id !in s.reading && Cached(s.entries, request.query, request.source).Some? {
        CachedIsDirect(s.entries, contents, request.query, request.source);
      }
    case ReadDone(id) =>
      if id in s.reading {
        var request, bytes := s.reading[id], contents(s.reading[id].source);
        FillingIsRight(request.query, bytes);
        StoringKeepsConsistent(s.entries, contents, request.source, Filling(request.query, bytes));
        assert ReadAnswer(request.query, bytes) == Direct(request.query, bytes);
      }
    case ReadFailed(id) =>
  }

  /**
    In every interleaving of counts and slices, whichever query filled an entry, each answer is
    what reading and decoding at once gives, and the cache never outgrows its limit.
   */
  lemma {:induction false} CacheIsTransparent(s: State, steps: seq<Step>, contents: Source -> seq<Byte>)
    requires Consistent(s.entries, contents) && AllFaithful(s.replies, contents)
    ensures |Run(s, steps, contents).entries| <= FILE_CONTENT_CACHE_LIMIT
    ensures AllFaithful(Run(s, steps, contents).replies, contents)
    decreases |steps|
  {
    hide Next, Faithful, AllFaithful;
    if steps == [] {
    } else {
      StepIsFaithful(s, steps[0], contents);
      CacheIsTransparent(Next(s, steps[0], contents), steps[1..], contents);
    }
  }

  /** A query is answered at once exactly when the cache holds what it asks for; otherwise it reads. */
  lemma AskHitsOrReads(s: State, id: nat, request: Request, contents: Source -> seq<Byte>)
    requires Consistent(s.entries, contents) && id !in s.reading
    ensures var t := Next(s, Ask(id, request), contents);
            var hit := request.source in s.entries
                       && (request.query.Count? || s.entries[request.source].lines.Some?);
            && t.entries == s.entries
            && t.reading == (if hit then s.reading else s.reading[id := request])
            && t.replies
               == if hit then s.replies + [Reply(id, request, Direct(request.query, contents(request.source)))]
                  else s.replies
  {
    if Cached(s.entries, request.query, request.source).Some? {
      CachedIsDirect(s.entries, contents, request.query, request.source);
    }
    hide CountLines, DecodeLines, SliceLines, Consistent, Direct;
  }

  /** The end of a read answers its query; one that worked leaves an entry the query can be answered from. */
  lemma ReadsEndInReplies(s: State, id: nat, contents: Source -> seq<Byte>)
    requires id in s.reading
    ensures var request, t := s.reading[id], Next(s, ReadDone(id), contents);
            && t.reading == s.reading - {id}
            && t.replies == s.replies + [Reply(id, request, Direct(request.query, contents(request.source)))]
            && request.source in t.entries && (request.query.Slice? ==> t.entries[request.source].lines.Some?)
    ensures var request, t := s.reading[id], Next(s, ReadFailed(id), contents);
            if request.source.Missing? then t == s
            else t == State(s.entries, s.reading - {id}, s.replies + [Reply(id, request, Failed)])
  {
    FillingIsRight(s.reading[id].query, contents(s.reading[id].source));
    hide CountLines, DecodeLines, SliceLines;
  }

  function RepliesTo(replies: seq<Reply>, id: nat): nat {
    if replies == [] then 0
    else RepliesTo(replies[..|replies| - 1], id) + if replies[|replies| - 1].id == id then 1 else 0
  }

  /** How many queries the thread began; a thread inside one begins no other. */
  function Begun(s: State, steps: seq<Step>, contents: Source -> seq<Byte>, id: nat): nat
    decreases |steps|
  {
    if steps == [] then 0
    else
      Begun(Next(s, steps[0], contents), steps[1..], contents, id)
      + if steps[0].Ask? && steps[0].id == id && id !in s.reading then 1 else 0
  }

  /** Replies a thread has or is still owed. */
  function Due(s: State, id: nat): nat {
    RepliesTo(s.replies, id) + if id in s.reading then 1 else 0
  }

  lemma OneMoreReply(replies: seq<Reply>, reply: Reply, id: nat)
    ensures RepliesTo(replies + [reply], id) == RepliesTo(replies, id) + if reply.id == id then 1 else 0
  {
    assert (replies + [reply])[..|replies|] == replies;
  }

  lemma StepKeepsDue(s: State, step: Step, contents: Source -> seq<Byte>, id: nat)
    ensures Due(Next(s, step, contents), id)
            == Due(s, id) + if step.Ask? && step.id == id && id !in s.reading then 1 else 0
  {
    var t := Next(s, step, contents);
    if |t.replies| > |s.replies| {
      OneMoreReply(s.replies, t.replies[|s.replies|], id);
      assert t.replies == s.replies + [t.replies[|s.replies|]];
    }
    hide RepliesTo, Stored, Filling, Cached, ReadAnswer;
  }

  /** In every interleaving each query is answered exactly once, or is still reading. */
  lemma {:induction false} EachQueryIsAnsweredOnce(s: State, steps: seq<Step>, contents: Source -> seq<Byte>, id: nat)
    ensures Due(Run(s, steps, contents), id) == Due(s, id) + Begun(s, steps, contents, id)
    decreases |steps|
  {
    hide Next, Due;
    if steps == [] {
    } else {
      StepKeepsDue(s, steps[0], contents, id);
      EachQueryIsAnsweredOnce(Next(s, steps[0], contents), steps[1..], contents, id);
    }
  }

  /** From an empty cache on. */
  lemma CacheIsTransparentFromTheStart(steps: seq<Step>, contents: Source -> seq<Byte>)
    ensures var end := Run(State(map[], map[], []), steps, contents);
            |end.entries| <= FILE_CONTENT_CACHE_LIMIT && AllFaithful(end.replies, contents)
  {
    CacheIsTransparent(State(map[], map[], []), steps, contents);
  }
}
