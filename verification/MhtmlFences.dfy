// The normaliser of mhtml_parser.py seen from the text it is given: which lines open and close a code fence, and what
// becomes of blank lines, text lines and fenced blocks as they are written.
module MhtmlFences {
  import opened Wrappers
  import opened Text
  import opened MhtmlMarkdown

  // ---------- Fence lines as they are written ----------

  function Times(c: char, n: nat): (r: string)
    ensures |r| == n && forall i :: 0 <= i < n ==> r[i] == c
  {
    seq(n, i => c)
  }

  predicate IsWritten(line: string, indent: nat, c: char, n: nat, tail: string) {
    line == Times(' ', indent) + Times(c, n) + tail
  }

  predicate SpacesAndTabs(s: string) {
    forall i :: 0 <= i < |s| ==> s[i] == ' ' || s[i] == '\t'
  }

  predicate IsFenceChar(c: char) {
    c == '`' || c == '~'
  }

  // At most three spaces, at least three times the character, and anything that does not begin with it.
  ghost predicate Opens(line: string, c: char, n: nat) {
    IsFenceChar(c) && n >= 3 &&
    exists indent: nat, tail :: IsWritten(line, indent, c, n, tail) && indent <= 3 && (tail == "" || tail[0] != c)
  }

  // At most three spaces, at least as many times the character as in the opening line, and white space.
  ghost predicate Closes(line: string, c: char, n: nat) {
    exists indent: nat, m: nat, tail ::
      IsWritten(line, indent, c, m, tail) && indent <= 3 && m >= n && SpacesAndTabs(tail)
  }

  lemma {:induction false} LeadingRunOf(c: char, n: nat, tail: string)
    requires tail == "" || tail[0] != c
    ensures LeadingRun(Times(c, n) + tail, c) == n
  {
    if n == 0 {
      assert Times(c, n) + tail == tail;
    } else {
      assert (Times(c, n) + tail)[1..] == Times(c, n - 1) + tail;
      LeadingRunOf(c, n - 1, tail);
    }
  }

  lemma RunParts(s: string, c: char)
    ensures var n := LeadingRun(s, c); s == Times(c, n) + s[n..] && (s[n..] == "" || s[n..][0] != c)
  {
    LeadingRunStops(s, c);
  }

  // The parts of a line: its indentation, the characters after it that are c, and the rest.
  lemma LineParts(line: string, c: char)
    ensures var indent := LeadingRun(line, ' ');
      var n := LeadingRun(line[indent..], c);
      IsWritten(line, indent, c, n, line[indent..][n..]) &&
      (line[indent..][n..] == "" || line[indent..][n..][0] != c)
  {
    hide LeadingRun;
    var indent := LeadingRun(line, ' ');
    var stripped := line[indent..];
    RunParts(line, ' ');
    RunParts(stripped, c);
    Assoc(Times(' ', indent), Times(c, LeadingRun(stripped, c)), stripped[LeadingRun(stripped, c)..]);
  }

  lemma PartsOf(line: string, indent: nat, c: char, n: nat, tail: string)
    requires IsWritten(line, indent, c, n, tail) && c != ' ' && n > 0 && (tail == "" || tail[0] != c)
    ensures LeadingRun(line, ' ') == indent
    ensures line[indent..] == Times(c, n) + tail && LeadingRun(line[indent..], c) == n && line[indent..][n..] == tail
  {
    var stripped := Times(c, n) + tail;
    assert line == Times(' ', indent) + stripped;
    LeadingRunOf(' ', indent, stripped);
    LeadingRunOf(c, n, tail);
  }

  // A line opens a fence of n times c exactly if it is written so.
  lemma OpensIff(line: string, c: char, n: nat)
    ensures OpeningFence(line) == Some(Fence(c, n)) <==> Opens(line, c, n)
  {
    hide LeadingRun, IsWritten;
    if OpeningFence(line) == Some(Fence(c, n)) {
      LineParts(line, c);
    }
    if Opens(line, c, n) {
      var indent: nat, tail :| IsWritten(line, indent, c, n, tail) && indent <= 3 && (tail == "" || tail[0] != c);
      PartsOf(line, indent, c, n, tail);
      assert line[indent..][0] == Times(c, n)[0];
    }
  }

  // A line closes a fence of n times c exactly if it is written so.
  lemma ClosesIff(line: string, c: char, n: nat)
    requires IsFenceChar(c) && n > 0
    ensures IsClosingFence(line, Fence(c, n)) <==> Closes(line, c, n)
  {
    hide LeadingRun, IsWritten, IsBlank, SpacesAndTabs;
    if IsClosingFence(line, Fence(c, n)) {
      LineParts(line, c);
      SpacesAreBlank(line[LeadingRun(line, ' ')..][LeadingRun(line[LeadingRun(line, ' ')..], c)..]);
    }
    if Closes(line, c, n) {
      var indent: nat, m: nat, tail :|
        IsWritten(line, indent, c, m, tail) && indent <= 3 && m >= n && SpacesAndTabs(tail);
      SpacesAreBlank(tail);
      SpacesNoFence(tail, c);
      PartsOf(line, indent, c, m, tail);
    }
  }

  lemma SpacesNoFence(s: string, c: char)
    requires SpacesAndTabs(s) && IsFenceChar(c)
    ensures s == "" || s[0] != c
  {
  }

  lemma SpacesAreBlank(s: string)
    ensures SpacesAndTabs(s) <==> IsBlank(s)
  {
  }

  // ---------- Documents as they are written ----------

  // A blank line; a text line, its trailing white space apart; a fenced block with its fence lines; a last fence
  // that is never closed.
  datatype Block =
    | Blank(line: string)
    | TextLine(stem: string, tail: string)
    | Fenced(open: string, body: seq<string>, close: string)
    | Unclosed(open: string, body: seq<string>)

  ghost predicate OpensNone(line: string) {
    forall c, n :: !Opens(line, c, n)
  }

  ghost predicate NoneCloses(lines: seq<string>, c: char, n: nat) {
    forall i :: 0 <= i < |lines| ==> !Closes(lines[i], c, n)
  }

  ghost predicate IsBlock(b: Block) {
    match b
    case Blank(line) => SpacesAndTabs(line)
    case TextLine(stem, tail) =>
      stem != "" && stem[|stem| - 1] != ' ' && stem[|stem| - 1] != '\t' && SpacesAndTabs(tail) && OpensNone(stem + tail)
    case Fenced(open, body, close) =>
      exists c, n :: Opens(open, c, n) && NoneCloses(body, c, n) && Closes(close, c, n)
    case Unclosed(open, body) =>
      exists c, n :: Opens(open, c, n) && NoneCloses(body, c, n)
  }

  ghost predicate IsDocument(blocks: seq<Block>) {
    && (forall i :: 0 <= i < |blocks| ==> IsBlock(blocks[i]))
    && forall i :: 0 <= i < |blocks| - 1 ==> !blocks[i].Unclosed?
  }

  function BlockLines(b: Block): seq<string> {
    match b
    case Blank(line) => [line]
    case TextLine(stem, tail) => [stem + tail]
    case Fenced(open, body, close) => [open] + body + [close]
    case Unclosed(open, body) => [open] + body
  }

  function Source(blocks: seq<Block>): seq<string> {
    if blocks == [] then [] else BlockLines(blocks[0]) + Source(blocks[1..])
  }

  // ---------- What is shown of them ----------

  predicate EndsInTwoSpaces(s: string) {
    |s| >= 2 && s[|s| - 1] == ' ' && s[|s| - 2] == ' '
  }

  // A fenced block as it stands; a text line with exactly two trailing spaces, or none; nothing for a blank line.
  function Kept(b: Block): seq<string> {
    match b
    case Blank(_) => []
    case TextLine(stem, tail) => [if EndsInTwoSpaces(tail) then stem + "  " else stem]
    case Fenced(open, body, close) => [open] + body + [close]
    case Unclosed(open, body) => [open] + body
  }

  // One empty line between two blocks that blank lines separate, and none before the first.
  function Shown(blocks: seq<Block>, spaced: bool, started: bool): seq<string> {
    if blocks == [] then []
    else if blocks[0].Blank? then Shown(blocks[1..], started, started)
    else (if spaced then [""] else []) + Kept(blocks[0]) + Shown(blocks[1..], false, true)
  }

  // ---------- Reading a document ----------

  function Verbatim(lines: seq<string>): seq<Piece> {
    seq(|lines|, i requires 0 <= i < |lines| => Piece(false, Code(lines[i])))
  }

  // Inside a fence every line reads as itself, until a line closes it.
  lemma {:induction false} ReadOpen(lines: seq<string>, rest: seq<string>, c: char, n: nat)
    requires IsFenceChar(c) && n > 0 && NoneCloses(lines, c, n)
    ensures Read(lines + rest, Some(Fence(c, n)), false, true) ==
      Verbatim(lines) + Read(rest, Some(Fence(c, n)), false, true)
  {
    if lines == [] {
      assert lines + rest == rest;
    } else {
      ClosesIff(lines[0], c, n);
      ConcatTail(lines, rest);
      ReadOpen(lines[1..], rest, c, n);
      assert Verbatim(lines) == [Piece(false, Code(lines[0]))] + Verbatim(lines[1..]);
    }
  }

  lemma ReadClose(close: string, rest: seq<string>, c: char, n: nat)
    requires IsFenceChar(c) && n > 0 && Closes(close, c, n)
    ensures Read([close] + rest, Some(Fence(c, n)), false, true) ==
      [Piece(false, Code(close))] + Read(rest, None, false, true)
  {
    ClosesIff(close, c, n);
    ConcatTail([close], rest);
  }

  lemma ReadOpening(open: string, rest: seq<string>, c: char, n: nat, spaced: bool, started: bool)
    requires Opens(open, c, n)
    ensures Read([open] + rest, None, spaced, started) ==
      [Piece(spaced, Code(open))] + Read(rest, Some(Fence(c, n)), false, true)
  {
    OpensIff(open, c, n);
    ConcatTail([open], rest);
  }

  // A fenced block reads as its lines, whatever comes before and after it.
  lemma ReadFenced(open: string, body: seq<string>, close: string, rest: seq<string>, c: char, n: nat, spaced: bool,
      started: bool)
    requires Opens(open, c, n) && NoneCloses(body, c, n) && Closes(close, c, n)
    ensures Read([open] + body + [close] + rest, None, spaced, started) ==
      [Piece(spaced, Code(open))] + Verbatim(body) + [Piece(false, Code(close))] + Read(rest, None, false, true)
  {
    hide Read, Opens, Closes, Verbatim;
    var after := [close] + rest;
    assert [open] + body + [close] + rest == [open] + (body + after);
    assert IsFenceChar(c) && n > 0 by {
      OpensNeeds(open, c, n);
    }
    ReadOpening(open, body + after, c, n, spaced, started);
    ReadOpen(body, after, c, n);
    ReadClose(close, rest, c, n);
    Assoc([Piece(spaced, Code(open))], Verbatim(body), [Piece(false, Code(close))] + Read(rest, None, false, true));
    Assoc([Piece(spaced, Code(open))] + Verbatim(body), [Piece(false, Code(close))], Read(rest, None, false, true));
  }

  lemma OpensNeeds(line: string, c: char, n: nat)
    requires Opens(line, c, n)
    ensures IsFenceChar(c) && n >= 3
  {
  }

  // A text line reads as its text, and as a hard break if it ends in two spaces.
  lemma ReadText(stem: string, tail: string, rest: seq<string>, spaced: bool, started: bool)
    requires IsBlock(TextLine(stem, tail))
    ensures Read([stem + tail] + rest, None, spaced, started) ==
      [Piece(spaced, Plain(stem, EndsInTwoSpaces(tail)))] + Read(rest, None, false, true)
  {
    var line := stem + tail;
    assert OpeningFence(line) == None by {
      if OpeningFence(line).Some? {
        var f := OpeningFence(line).value;
        OpensIff(line, f.c, f.len);
      }
    }
    assert !IsBlank(line) by {
      assert line[|stem| - 1] == stem[|stem| - 1];
    }
    StripRightTail(stem, tail, SPACE_TAB);
    TrailingSpacesOf(stem, tail);
    ConcatTail([line], rest);
  }

  lemma TrailingSpacesOf(stem: string, tail: string)
    requires stem != "" && stem[|stem| - 1] != ' '
    ensures TrailingSpaces(stem + tail) >= 2 <==> EndsInTwoSpaces(tail)
  {
    var line := stem + tail;
    StripRightSplits(line, {' '});
    var r := StripRight(line, {' '});
    assert stem != "" ==> line[|stem| - 1] == stem[|stem| - 1];
    if EndsInTwoSpaces(tail) {
      assert line[|line| - 1] == ' ' && line[|line| - 2] == ' ';
    }
    if |line| - |r| >= 2 {
      assert line[|line| - 1] in {' '} && line[|line| - 2] in {' '};
      assert |tail| >= 2;
    }
  }

  // A blank line outside fences reads as nothing, but separates what comes after it from what came before.
  lemma ReadBlank(line: string, rest: seq<string>, spaced: bool, started: bool)
    requires SpacesAndTabs(line)
    ensures Read([line] + rest, None, spaced, started) == Read(rest, None, started, started)
  {
    var indent := LeadingRun(line, ' ');
    assert line[indent..] != "" ==> line[indent..][0] == line[indent];
    ConcatTail([line], rest);
  }

  lemma {:induction false} PrintVerbatim(lines: seq<string>)
    ensures Print(Verbatim(lines)) == lines
  {
    if lines != [] {
      assert Verbatim(lines)[1..] == Verbatim(lines[1..]);
      PrintVerbatim(lines[1..]);
    }
  }

  lemma PrintFenced(open: string, body: seq<string>, spaced: bool)
    ensures Print([Piece(spaced, Code(open))] + Verbatim(body)) == (if spaced then [""] else []) + ([open] + body)
  {
    PrintFirst(Piece(spaced, Code(open)), Verbatim(body));
    PrintVerbatim(body);
  }

  // ---------- Whole documents ----------

  lemma ReadBlock(b: Block, rest: seq<string>, spaced: bool, started: bool)
    requires IsBlock(b) && !b.Blank? && !b.Unclosed?
    ensures Print(Read(BlockLines(b) + rest, None, spaced, started)) ==
      (if spaced then [""] else []) + Kept(b) + Print(Read(rest, None, false, true))
  {
    hide Read, Print, Opens, Closes, OpensNone, SpacesAndTabs;
    match b
    case TextLine(stem, tail) =>
      ReadText(stem, tail, rest, spaced, started);
      PrintFirst(Piece(spaced, Plain(stem, EndsInTwoSpaces(tail))), Read(rest, None, false, true));
    case Fenced(open, body, close) =>
      var c, n :| Opens(open, c, n) && NoneCloses(body, c, n) && Closes(close, c, n);
      ReadFenced(open, body, close, rest, c, n, spaced, started);
      PrintBlock(open, body, close, Read(rest, None, false, true), spaced);
  }

  lemma PrintBlock(open: string, body: seq<string>, close: string, rest: seq<Piece>, spaced: bool)
    ensures Print([Piece(spaced, Code(open))] + Verbatim(body) + [Piece(false, Code(close))] + rest) ==
      (if spaced then [""] else []) + ([open] + body + [close]) + Print(rest)
  {
    hide Print, Verbatim;
    var gap: seq<string> := if spaced then [""] else [];
    var front := [Piece(spaced, Code(open))] + Verbatim(body);
    PrintFenced(open, body, spaced);
    PrintAppend(front + [Piece(false, Code(close))], rest);
    PrintAppend(front, [Piece(false, Code(close))]);
    PrintOne(close);
    Assoc(gap, [open] + body, [close]);
  }

  lemma PrintOne(line: string)
    ensures Print([Piece(false, Code(line))]) == [line]
  {
  }

  lemma ReadUnclosed(open: string, body: seq<string>, spaced: bool, started: bool)
    requires IsBlock(Unclosed(open, body))
    ensures Print(Read([open] + body, None, spaced, started)) == (if spaced then [""] else []) + ([open] + body)
  {
    hide Print, Opens, Closes, Verbatim;
    var c, n :| Opens(open, c, n) && NoneCloses(body, c, n);
    OpensNeeds(open, c, n);
    ReadOpening(open, body, c, n, spaced, started);
    ReadOpen(body, [], c, n);
    assert body + [] == body;
    assert Read([], Some(Fence(c, n)), false, true) == [];
    assert Verbatim(body) + [] == Verbatim(body);
    assert Read(body, Some(Fence(c, n)), false, true) == Verbatim(body);
    assert Read([open] + body, None, spaced, started) == [Piece(spaced, Code(open))] + Verbatim(body);
    PrintFenced(open, body, spaced);
  }

  // What the normaliser prints for the lines of a document.
  lemma {:induction false} ReadSource(blocks: seq<Block>, spaced: bool, started: bool)
    requires IsDocument(blocks)
    ensures Print(Read(Source(blocks), None, spaced, started)) == Shown(blocks, spaced, started)
    decreases |blocks|
  {
    hide Read, Print, IsBlock;
    if blocks == [] {
      ReadNothing(spaced, started);
    } else {
      var b, rest := blocks[0], blocks[1..];
      assert IsBlock(b);
      if b.Blank? {
        ReadSource(rest, started, started);
        BlankBlock(b);
        ReadBlank(b.line, Source(rest), spaced, started);
      } else if b.Unclosed? {
        assert rest == [];
        ReadUnclosed(b.open, b.body, spaced, started);
        assert Source(blocks) == [b.open] + b.body;
      } else {
        ReadSource(rest, false, true);
        ReadBlock(b, Source(rest), spaced, started);
      }
    }
  }

  lemma BlankBlock(b: Block)
    requires IsBlock(b) && b.Blank?
    ensures SpacesAndTabs(b.line)
  {
  }

  lemma ReadNothing(spaced: bool, started: bool)
    ensures Print(Read([], None, spaced, started)) == []
  {
  }

  // ---------- Texts as they are written ----------

  // Every line but the last followed by its line end: a carriage return, a line feed, or both.
  function Written(lines: seq<string>, ends: seq<string>): string
    requires |lines| == |ends| + 1
  {
    if ends == [] then lines[0] else lines[0] + ends[0] + Written(lines[1..], ends[1..])
  }

  predicate IsLineEnd(end: string) {
    end == "\n" || end == "\r" || end == "\r\n"
  }

  // A carriage return is not followed by a line feed, which would make one line end of the two.
  predicate AreLineEnds(lines: seq<string>, ends: seq<string>)
    requires |lines| == |ends| + 1
  {
    && (forall i :: 0 <= i < |ends| ==> IsLineEnd(ends[i]))
    && forall i :: 0 <= i < |ends| - 1 ==> StayApart(ends[i], lines[i + 1], ends[i + 1])
  }

  predicate StayApart(end: string, line: string, next: string) {
    !(end == "\r" && line == "" && next == "\n")
  }

  lemma ReplaceEnd(end: string, rest: string)
    requires IsLineEnd(end) && (end == "\r" && rest != "" ==> rest[0] != '\n')
    ensures ReplaceCr(ReplaceCrLf(end + rest)) == "\n" + ReplaceCr(ReplaceCrLf(rest))
  {
    var s := end + rest;
    if end == "\r\n" {
      assert s[2..] == rest;
      ReplaceFirst('\n', ReplaceCrLf(rest));
    } else {
      assert s[1..] == rest && s[0] == end[0];
      ReplaceFirst(end[0], ReplaceCrLf(rest));
    }
  }

  lemma ReplaceOrdinary(c: char, s: string)
    requires c != '\r' && c != '\n'
    ensures ReplaceCr(ReplaceCrLf([c] + s)) == [c] + ReplaceCr(ReplaceCrLf(s))
  {
    assert ([c] + s)[1..] == s;
    ReplaceFirst(c, ReplaceCrLf(s));
  }

  // Text without line ends stays as it is before whatever follows.
  lemma {:induction false} ReplaceLine(line: string, rest: string)
    requires NoLineEnds(line)
    ensures ReplaceCr(ReplaceCrLf(line + rest)) == line + ReplaceCr(ReplaceCrLf(rest))
  {
    hide ReplaceCr, ReplaceCrLf;
    if line == "" {
      assert line + rest == rest;
      assert line + ReplaceCr(ReplaceCrLf(rest)) == ReplaceCr(ReplaceCrLf(rest));
    } else {
      assert line[0] in line;
      ReplaceLine(line[1..], rest);
      ReplaceOrdinary(line[0], line[1..] + rest);
      assert line == [line[0]] + line[1..];
      Assoc([line[0]], line[1..], rest);
      Assoc([line[0]], line[1..], ReplaceCr(ReplaceCrLf(rest)));
    }
  }

  lemma ReplaceFirst(c: char, s: string)
    ensures ReplaceCr([c] + s) == [if c == '\r' then '\n' else c] + ReplaceCr(s)
  {
    assert ([c] + s)[1..] == s;
  }

  lemma {:induction false} ReplaceWritten(lines: seq<string>, ends: seq<string>)
    requires |lines| == |ends| + 1 && AllClean(lines) && AreLineEnds(lines, ends)
    ensures ReplaceCr(ReplaceCrLf(Written(lines, ends))) == Join("\n", lines)
    decreases |lines|
  {
    if ends == [] {
      ReplaceLine(lines[0], "");
      assert lines[0] + "" == lines[0];
    } else {
      var rest := Written(lines[1..], ends[1..]);
      assert forall i :: 0 <= i < |ends[1..]| ==> ends[1..][i] == ends[i + 1];
      ReplaceWritten(lines[1..], ends[1..]);
      WrittenFirst(lines[1..], ends[1..]);
      ReplaceEnd(ends[0], rest);
      ReplaceLine(lines[0], ends[0] + rest);
      Assoc(lines[0], ends[0], rest);
      Assoc(lines[0], "\n", Join("\n", lines[1..]));
    }
  }

  lemma WrittenFirst(lines: seq<string>, ends: seq<string>)
    requires |lines| == |ends| + 1 && AllClean(lines) && AreLineEnds(lines, ends)
    ensures var s := Written(lines, ends);
      s != "" && s[0] == '\n' ==> ends != [] && lines[0] == "" && ends[0] == "\n"
  {
    if lines[0] != "" {
      assert lines[0][0] in lines[0];
      assert Written(lines, ends)[0] == lines[0][0];
    } else if ends != [] {
      assert Written(lines, ends)[0] == ends[0][0];
    }
  }

  // The lines of a text are what stands between its line ends.
  lemma LinesOfWritten(lines: seq<string>, ends: seq<string>)
    requires |lines| == |ends| + 1 && AllClean(lines) && AreLineEnds(lines, ends)
    ensures Lines(Written(lines, ends)) == lines
  {
    ReplaceWritten(lines, ends);
    assert forall i :: 0 <= i < |lines| ==> '\n' !in lines[i];
    SplitJoin(lines, '\n');
  }

  // Whatever the line ends, a document comes out as its blocks, one empty line where blank lines separated two, and
  // no empty lines at the end.
  lemma NormalizedIs(blocks: seq<Block>, ends: seq<string>)
    requires IsDocument(blocks) && |Source(blocks)| == |ends| + 1
    requires AllClean(Source(blocks)) && AreLineEnds(Source(blocks), ends)
    ensures Normalized(Written(Source(blocks), ends)) == Join("\n", DropEmpty(Shown(blocks, false, false)))
  {
    var text := Written(Source(blocks), ends);
    LinesOfWritten(Source(blocks), ends);
    ReadSource(blocks, false, false);
    MeaningShape(text);
    TrimmedShape(Meaning(text));
    NormalizedIsPrint(text);
  }

  // Unless its last fence is open, nothing at all is dropped.
  lemma ClosedDropsNothing(blocks: seq<Block>)
    requires IsDocument(blocks) && forall i :: 0 <= i < |blocks| ==> !blocks[i].Unclosed?
    ensures DropEmpty(Shown(blocks, false, false)) == Shown(blocks, false, false)
  {
    ShownLast(blocks, false, false);
  }

  lemma {:induction false} ShownLast(blocks: seq<Block>, spaced: bool, started: bool)
    requires IsDocument(blocks) && forall i :: 0 <= i < |blocks| ==> !blocks[i].Unclosed?
    ensures var shown := Shown(blocks, spaced, started); shown == [] || shown[|shown| - 1] != ""
    decreases |blocks|
  {
    hide IsBlock;
    if blocks != [] {
      var b, rest := blocks[0], blocks[1..];
      assert IsBlock(b);
      if b.Blank? {
        ShownLast(rest, started, started);
      } else {
        ShownLast(rest, false, true);
        KeptLast(b);
      }
    }
  }

  lemma KeptLast(b: Block)
    requires IsBlock(b) && !b.Blank? && !b.Unclosed?
    ensures Kept(b) != [] && Kept(b)[|Kept(b)| - 1] != ""
  {
    if b.Fenced? {
      var c, n :| Opens(b.open, c, n) && NoneCloses(b.body, c, n) && Closes(b.close, c, n);
      OpensNeeds(b.open, c, n);
      var indent: nat, m: nat, tail :|
        IsWritten(b.close, indent, c, m, tail) && indent <= 3 && m >= n && SpacesAndTabs(tail);
      assert |b.close| >= m;
    }
  }

  // ---------- Every text is one of them ----------

  lemma {:induction false} FirstClosing(lines: seq<string>, c: char, n: nat) returns (k: nat)
    ensures k <= |lines| && NoneCloses(lines[..k], c, n) && (k < |lines| ==> Closes(lines[k], c, n))
  {
    if lines == [] || Closes(lines[0], c, n) {
      k := 0;
    } else {
      k := FirstClosing(lines[1..], c, n);
      k := k + 1;
      assert lines[..k] == [lines[0]] + lines[1..][..k - 1];
    }
  }

  lemma StemParts(line: string) returns (stem: string, tail: string)
    requires !SpacesAndTabs(line)
    ensures stem + tail == line && SpacesAndTabs(tail)
    ensures stem != "" && stem[|stem| - 1] != ' ' && stem[|stem| - 1] != '\t'
  {
    hide Stem, SpacesAndTabs, IsBlank;
    SpacesAreBlank(line);
    StemOf(line);
    stem := Stem(line);
    tail := line[|stem|..];
    SpacesAreBlank(tail);
  }

  lemma TextBlock(line: string) returns (b: Block)
    requires !SpacesAndTabs(line) && OpensNone(line)
    ensures b.TextLine? && IsBlock(b) && BlockLines(b) == [line]
  {
    hide OpensNone, SpacesAndTabs;
    var stem, tail := StemParts(line);
    b := TextLine(stem, tail);
  }

  lemma FenceBlock(line: string, lines: seq<string>) returns (b: Block, rest: seq<string>)
    requires !OpensNone(line)
    ensures IsBlock(b) && BlockLines(b) + rest == [line] + lines && |rest| <= |lines| && (b.Unclosed? ==> rest == [])
  {
    hide Opens, Closes;
    var c, n :| Opens(line, c, n);
    var k := FirstClosing(lines, c, n);
    if k == |lines| {
      assert lines[..k] == lines;
      b, rest := Unclosed(line, lines), [];
      assert BlockLines(b) + rest == BlockLines(b);
    } else {
      b, rest := Fenced(line, lines[..k], lines[k]), lines[k + 1..];
      assert lines == lines[..k] + [lines[k]] + lines[k + 1..];
      assert BlockLines(b) == [line] + lines[..k] + [lines[k]];
    }
  }

  // The first block of some lines.
  lemma FirstBlock(lines: seq<string>) returns (b: Block, rest: seq<string>)
    requires lines != []
    ensures IsBlock(b) && BlockLines(b) + rest == lines && |rest| < |lines| && (b.Unclosed? ==> rest == [])
  {
    hide OpensNone;
    assert lines == [lines[0]] + lines[1..];
    if SpacesAndTabs(lines[0]) {
      b, rest := Blank(lines[0]), lines[1..];
    } else if OpensNone(lines[0]) {
      b := TextBlock(lines[0]);
      rest := lines[1..];
    } else {
      b, rest := FenceBlock(lines[0], lines[1..]);
    }
  }

  // Any lines are those of a document.
  lemma {:induction false} EveryLines(lines: seq<string>) returns (blocks: seq<Block>)
    ensures IsDocument(blocks) && Source(blocks) == lines && (lines == [] ==> blocks == [])
    decreases |lines|
  {
    hide IsBlock, BlockLines;
    if lines == [] {
      blocks := [];
    } else {
      var b, rest := FirstBlock(lines);
      var more := EveryLines(rest);
      blocks := [b] + more;
      assert blocks[1..] == more;
    }
  }

  lemma OneMoreEnd(end: string, lines: seq<string>, ends: seq<string>)
    requires |lines| == |ends| + 1 && AllClean(lines) && AreLineEnds(lines, ends) && IsLineEnd(end)
    requires ends != [] ==> StayApart(end, lines[0], ends[0])
    ensures AllClean([""] + lines) && AreLineEnds([""] + lines, [end] + ends)
    ensures Written([""] + lines, [end] + ends) == end + Written(lines, ends)
  {
    hide IsLineEnd, StayApart, NoLineEnds;
    assert NoLineEnds("") by {
      NothingWritten();
    }
    WrittenAfter(end, lines, ends);
  }

  lemma WrittenAfter(end: string, lines: seq<string>, ends: seq<string>)
    requires |lines| == |ends| + 1
    ensures Written([""] + lines, [end] + ends) == end + Written(lines, ends)
  {
    hide Written;
    WrittenFrom("", lines, end, ends);
    assert "" + end == end;
  }

  lemma WrittenFrom(line: string, lines: seq<string>, end: string, ends: seq<string>)
    requires |lines| == |ends| + 1
    ensures Written([line] + lines, [end] + ends) == line + end + Written(lines, ends)
  {
    ConcatTail([line], lines);
    ConcatTail([end], ends);
  }

  lemma OneMoreChar(c: char, lines: seq<string>, ends: seq<string>)
    requires |lines| == |ends| + 1 && AllClean(lines) && AreLineEnds(lines, ends) && c != '\n' && c != '\r'
    ensures var longer := [[c] + lines[0]] + lines[1..];
      AllClean(longer) && AreLineEnds(longer, ends) && Written(longer, ends) == [c] + Written(lines, ends)
  {
    var longer := [[c] + lines[0]] + lines[1..];
    assert longer[1..] == lines[1..];
    assert NoLineEnds(lines[0]) && NoLineEnds([c] + lines[0]);
    if ends != [] {
      Assoc([c], lines[0], ends[0]);
      Assoc([c], lines[0] + ends[0], Written(lines[1..], ends[1..]));
    }
  }

  lemma EndFirst(lines: seq<string>, ends: seq<string>)
    requires |lines| == |ends| + 1 && ends != [] && lines[0] == "" && ends[0] == "\n"
    ensures Written(lines, ends) != "" && Written(lines, ends)[0] == '\n'
  {
  }

  lemma {:induction false} EveryWritten(text: string) returns (lines: seq<string>, ends: seq<string>)
    ensures |lines| == |ends| + 1 && AllClean(lines) && AreLineEnds(lines, ends) && Written(lines, ends) == text
    decreases |text|
  {
    hide AreLineEnds, AllClean, Written;
    if text == "" {
      lines, ends := [""], [];
      NothingWritten();
    } else if text[0] == '\n' || text[0] == '\r' {
      var n: nat := if |text| > 1 && text[0] == '\r' && text[1] == '\n' then 2 else 1;
      var more, moreEnds := EveryWritten(text[n..]);
      if moreEnds != [] && more[0] == "" && moreEnds[0] == "\n" {
        EndFirst(more, moreEnds);
      }
      OneMoreEnd(text[..n], more, moreEnds);
      lines, ends := [""] + more, [text[..n]] + moreEnds;
      assert text == text[..n] + text[n..];
    } else {
      var more, moreEnds := EveryWritten(text[1..]);
      lines, ends := [[text[0]] + more[0]] + more[1..], moreEnds;
      OneMoreChar(text[0], more, moreEnds);
      assert text == [text[0]] + text[1..];
    }
  }

  lemma NothingWritten()
    ensures NoLineEnds("") && AllClean([""]) && AreLineEnds([""], []) && Written([""], []) == ""
  {
  }

  // Every text is a document with line ends, so what the normaliser makes of it is determined.
  lemma EveryText(text: string) returns (blocks: seq<Block>, ends: seq<string>)
    ensures IsDocument(blocks) && |Source(blocks)| == |ends| + 1
    ensures AllClean(Source(blocks)) && AreLineEnds(Source(blocks), ends)
    ensures text == Written(Source(blocks), ends)
    ensures Normalized(text) == Join("\n", DropEmpty(Shown(blocks, false, false)))
  {
    var lines: seq<string>;
    lines, ends := EveryWritten(text);
    blocks := EveryLines(lines);
    NormalizedIs(blocks, ends);
  }
}
