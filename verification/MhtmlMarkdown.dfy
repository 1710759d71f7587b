// Markdown normalisation of mhtml_parser.py: a line machine that knows about code fences.
module MhtmlMarkdown {
  import opened Wrappers
  import opened Text

  // An open fence: its character and its length.
  datatype Fence = Fence(c: char, len: nat)

  // len(s) - len(s.lstrip(c))
  function LeadingRun(s: string, c: char): (n: nat)
    ensures n <= |s|
  {
    if s != "" && s[0] == c then 1 + LeadingRun(s[1..], c) else 0
  }

  function OpeningFence(line: string): Option<Fence> {
    var indent := LeadingRun(line, ' ');
    var stripped := line[indent..];
    if indent > 3 || stripped == "" || stripped[0] !in {'`', '~'} || LeadingRun(stripped, stripped[0]) < 3 then None
    else Some(Fence(stripped[0], LeadingRun(stripped, stripped[0])))
  }

  predicate IsClosingFence(line: string, fence: Fence) {
    var indent := LeadingRun(line, ' ');
    var stripped := line[indent..];
    var run := LeadingRun(stripped, fence.c);
    indent <= 3 && run >= fence.len && IsBlank(stripped[run..])
  }

  // not line.strip(" \t")
  predicate IsBlank(line: string) {
    forall i :: 0 <= i < |line| ==> line[i] in SPACE_TAB
  }

  // line.rstrip(" \t") and line.rstrip(" ")
  function Stem(line: string): string {
    StripRight(line, SPACE_TAB)
  }

  function TrailingSpaces(line: string): int {
    |line| - |StripRight(line, {' '})|
  }

  // ---------- What a document says ----------

  // A line outside fences is its text and whether it ends in a hard break; a line of a fenced block, its fence
  // lines included, is itself.
  datatype Item = Plain(stem: string, hardBreak: bool) | Code(line: string)

  // An item, and whether blank lines separate it from the item before.
  datatype Piece = Piece(spaced: bool, item: Item)

  function FenceAfter(line: string, fence: Option<Fence>): Option<Fence> {
    match fence
    case None => OpeningFence(line)
    case Some(f) => if IsClosingFence(line, f) then None else fence
  }

  // The pieces of `lines`, read inside `fence`, after a blank line if `spaced`; `started` says whether anything
  // came before.
  function Read(lines: seq<string>, fence: Option<Fence>, spaced: bool, started: bool): seq<Piece> {
    if lines == [] then []
    else
      var line, rest := lines[0], lines[1..];
      if fence.Some? || OpeningFence(line).Some? then
        [Piece(spaced, Code(line))] + Read(rest, FenceAfter(line, fence), false, true)
      else if IsBlank(line) then Read(rest, None, started, started)
      else [Piece(spaced, Plain(Stem(line), TrailingSpaces(line) >= 2))] + Read(rest, None, false, true)
  }

  function Line(item: Item): string {
    match item
    case Plain(stem, hardBreak) => if hardBreak then stem + "  " else stem
    case Code(line) => line
  }

  function PrintPiece(p: Piece): seq<string> {
    if p.spaced then ["", Line(p.item)] else [Line(p.item)]
  }

  function Print(pieces: seq<Piece>): seq<string> {
    if pieces == [] then [] else PrintPiece(pieces[0]) + Print(pieces[1..])
  }

  // Without the empty lines an unclosed last fence may end in.
  function TrimCode(pieces: seq<Piece>): seq<Piece> {
    if pieces != [] && pieces[|pieces| - 1].item == Code("") then TrimCode(pieces[..|pieces| - 1]) else pieces
  }

  function ReplaceCrLf(s: string): string {
    if s == "" then ""
    else if |s| >= 2 && s[0] == '\r' && s[1] == '\n' then "\n" + ReplaceCrLf(s[2..])
    else [s[0]] + ReplaceCrLf(s[1..])
  }

  function ReplaceCr(s: string): string {
    if s == "" then "" else [if s[0] == '\r' then '\n' else s[0]] + ReplaceCr(s[1..])
  }

  // The lines of a text, whatever its line endings.
  function Lines(text: string): seq<string> {
    Split(ReplaceCr(ReplaceCrLf(text)), '\n')
  }

  // What a text says.
  function Meaning(text: string): seq<Piece> {
    Read(Lines(text), None, false, false)
  }

  // _normalize_markdown, on whole texts.
  function Normalized(text: string): string {
    Strip(Join("\n", Print(Meaning(text))), {'\n'})
  }

  // ---------- Reading back a printed piece ----------

  lemma {:induction false} LeadingRunAppend(s: string, c: char, tail: string)
    requires LeadingRun(s, c) < |s| || tail == "" || tail[0] != c
    ensures LeadingRun(s + tail, c) == LeadingRun(s, c)
  {
    if s == "" {
      assert s + tail == tail;
    } else if s[0] == c {
      assert (s + tail)[1..] == s[1..] + tail;
      LeadingRunAppend(s[1..], c, tail);
    }
  }

  lemma {:induction false} LeadingRunStops(s: string, c: char)
    ensures var n := LeadingRun(s, c);
      (n < |s| ==> s[n] != c) && forall i :: 0 <= i < n ==> s[i] == c
  {
    if s != "" && s[0] == c {
      LeadingRunStops(s[1..], c);
    }
  }

  // A text line: something other than white space, which comes last.
  ghost predicate IsStem(s: string) {
    s != "" && s[|s| - 1] !in SPACE_TAB
  }

  // Trailing white space never makes or breaks an opening fence.
  lemma OpeningFenceIgnoresTail(stem: string, tail: string)
    requires IsStem(stem) && IsBlank(tail)
    ensures OpeningFence(stem + tail) == OpeningFence(stem)
  {
    LeadingRunStops(stem, ' ');
    LeadingRunAppend(stem, ' ', tail);
    var stripped := stem[LeadingRun(stem, ' ')..];
    assert (stem + tail)[LeadingRun(stem, ' ')..] == stripped + tail;
    if stripped[0] in {'`', '~'} {
      LeadingRunAppend(stripped, stripped[0], tail);
    }
  }

  lemma StemOf(line: string)
    requires !IsBlank(line)
    ensures IsStem(Stem(line)) && Stem(line) <= line && IsBlank(line[|Stem(line)|..])
  {
    StripRightSplits(line, SPACE_TAB);
  }

  // A printed text line reads as the text it was printed from.
  lemma PlainReadsBack(stem: string, hardBreak: bool)
    requires IsStem(stem) && OpeningFence(stem) == None
    ensures var line := Line(Plain(stem, hardBreak));
      OpeningFence(line) == None && !IsBlank(line) && Stem(line) == stem && (TrailingSpaces(line) >= 2) == hardBreak
  {
    var line := Line(Plain(stem, hardBreak));
    if hardBreak {
      OpeningFenceIgnoresTail(stem, "  ");
    }
    StripRightTail(stem, if hardBreak then "  " else "", SPACE_TAB);
    StripRightTail(stem, if hardBreak then "  " else "", {' '});
    assert stem + "" == stem;
    assert line[|stem| - 1] == stem[|stem| - 1];
  }

  lemma {:induction false} StripRightTail(s: string, tail: string, cs: set<char>)
    requires s != "" && s[|s| - 1] !in cs && forall i :: 0 <= i < |tail| ==> tail[i] in cs
    ensures StripRight(s + tail, cs) == s
  {
    if tail == "" {
      assert s + tail == s;
    } else {
      StripRightTail(s, tail[..|tail| - 1], cs);
      assert (s + tail)[..|s + tail| - 1] == s + tail[..|tail| - 1];
    }
  }

  // ---------- Pieces that reading produces ----------

  ghost predicate HeadOk(p: Piece, fence: Option<Fence>) {
    match p.item
    case Code(line) => (fence.Some? ==> !p.spaced) && (fence.Some? || OpeningFence(line).Some?)
    case Plain(stem, _) => fence.None? && IsStem(stem) && OpeningFence(stem) == None
  }

  function NextFence(p: Piece, fence: Option<Fence>): Option<Fence> {
    if p.item.Code? then FenceAfter(p.item.line, fence) else None
  }

  ghost predicate WellFormed(pieces: seq<Piece>, fence: Option<Fence>) {
    pieces != [] ==> HeadOk(pieces[0], fence) && WellFormed(pieces[1..], NextFence(pieces[0], fence))
  }

  lemma {:induction false} ReadWellFormed(lines: seq<string>, fence: Option<Fence>, spaced: bool, started: bool)
    requires fence.Some? ==> !spaced
    ensures WellFormed(Read(lines, fence, spaced, started), fence)
    ensures var ps := Read(lines, fence, spaced, started); ps != [] && ps[0].spaced ==> spaced || started
    decreases lines
  {
    if lines != [] {
      var line, rest := lines[0], lines[1..];
      if fence.Some? || OpeningFence(line).Some? {
        ReadWellFormed(rest, FenceAfter(line, fence), false, true);
        assert Read(lines, fence, spaced, started)[1..] == Read(rest, FenceAfter(line, fence), false, true);
      } else if IsBlank(line) {
        ReadWellFormed(rest, None, started, started);
      } else {
        ReadWellFormed(rest, None, false, true);
        StemOf(line);
        OpeningFenceIgnoresTail(Stem(line), line[|Stem(line)|..]);
        assert Stem(line) + line[|Stem(line)|..] == line;
        assert Read(lines, fence, spaced, started)[1..] == Read(rest, None, false, true);
      }
    }
  }

  lemma ReadHead(p: Piece, lines: seq<string>, fence: Option<Fence>)
    requires HeadOk(p, fence)
    ensures Read([Line(p.item)] + lines, fence, p.spaced, true) == [p] + Read(lines, NextFence(p, fence), false, true)
    ensures !p.spaced ==>
      Read([Line(p.item)] + lines, fence, false, false) == [p] + Read(lines, NextFence(p, fence), false, true)
  {
    var line := Line(p.item);
    if p.item.Plain? {
      PlainReadsBack(p.item.stem, p.item.hardBreak);
    }
    assert ([line] + lines)[1..] == lines;
  }

  // Reading what was printed gives back the pieces it was printed from.
  lemma {:induction false} ReadPrint(pieces: seq<Piece>, fence: Option<Fence>, started: bool)
    requires WellFormed(pieces, fence)
    requires pieces != [] && pieces[0].spaced ==> started
    ensures Read(Print(pieces), fence, false, started) == pieces
    decreases |pieces|
  {
    if pieces != [] {
      var p, rest := pieces[0], pieces[1..];
      ReadPrint(rest, NextFence(p, fence), true);
      ReadHead(p, Print(rest), fence);
      var tail := [Line(p.item)] + Print(rest);
      assert Print(pieces) == if p.spaced then [""] + tail else tail;
      assert [p] + rest == pieces;
      if p.spaced {
        assert fence == None && started;
        BlankFirst(tail);
      }
    }
  }

  lemma BlankFirst(lines: seq<string>)
    ensures Read([""] + lines, None, false, true) == Read(lines, None, true, true)
  {
    assert ([""] + lines)[1..] == lines;
    assert OpeningFence("") == None;
  }

  // ---------- Trailing empty lines ----------

  lemma {:induction false} WellFormedPrefix(pieces: seq<Piece>, fence: Option<Fence>, n: nat)
    requires WellFormed(pieces, fence) && n <= |pieces|
    ensures WellFormed(pieces[..n], fence)
  {
    if n > 0 {
      assert pieces[..n][1..] == pieces[1..][..n - 1];
      WellFormedPrefix(pieces[1..], NextFence(pieces[0], fence), n - 1);
    }
  }

  lemma {:induction false} TrimCodePrefix(pieces: seq<Piece>)
    ensures TrimCode(pieces) <= pieces
    ensures TrimCode(TrimCode(pieces)) == TrimCode(pieces)
  {
    if pieces != [] && pieces[|pieces| - 1].item == Code("") {
      TrimCodePrefix(pieces[..|pieces| - 1]);
    }
  }

  function FenceAfterAll(pieces: seq<Piece>, fence: Option<Fence>): Option<Fence> {
    if pieces == [] then fence else FenceAfterAll(pieces[1..], NextFence(pieces[0], fence))
  }

  ghost predicate OpenFence(fence: Option<Fence>) {
    fence.Some? ==> fence.value.len >= 3
  }

  lemma EmptyLineKeepsFence(fence: Option<Fence>)
    requires OpenFence(fence)
    ensures FenceAfter("", fence) == fence
  {
    assert OpeningFence("") == None;
  }

  // Empty lines are lost only at the end of a last fence that is never closed.
  lemma {:induction false} ClosedKeepsAll(pieces: seq<Piece>, fence: Option<Fence>)
    requires WellFormed(pieces, fence) && OpenFence(fence) && FenceAfterAll(pieces, fence) == None
    ensures TrimCode(pieces) == pieces
  {
    if pieces != [] {
      var p, rest := pieces[0], pieces[1..];
      ClosedKeepsAll(rest, NextFence(p, fence));
      if rest == [] {
        EmptyLineKeepsFence(fence);
      } else {
        TrimCodePrefix(rest[..|rest| - 1]);
        assert pieces[|pieces| - 1] == rest[|rest| - 1];
      }
    }
  }

  // ---------- Back to text ----------

  function DropEmpty(lines: seq<string>): seq<string> {
    if lines != [] && lines[|lines| - 1] == "" then DropEmpty(lines[..|lines| - 1]) else lines
  }

  lemma {:induction false} PrintAppend(a: seq<Piece>, b: seq<Piece>)
    ensures Print(a + b) == Print(a) + Print(b)
  {
    if a == [] {
      assert a + b == b;
    } else {
      PrintAppend(a[1..], b);
      ConcatTail(a, b);
      Assoc(PrintPiece(a[0]), Print(a[1..]), Print(b));
    }
  }

  // Only a line inside a fence prints as an empty line.
  ghost predicate EmptyOnlyInCode(pieces: seq<Piece>) {
    forall i :: 0 <= i < |pieces| && Line(pieces[i].item) == "" ==> pieces[i] == Piece(false, Code(""))
  }

  lemma {:induction false} WellFormedEmpty(pieces: seq<Piece>, fence: Option<Fence>)
    requires WellFormed(pieces, fence)
    ensures EmptyOnlyInCode(pieces)
  {
    if pieces != [] {
      var p, rest := pieces[0], pieces[1..];
      WellFormedEmpty(rest, NextFence(p, fence));
      assert OpeningFence("") == None;
      forall i | 0 <= i < |pieces| && Line(pieces[i].item) == "" ensures pieces[i] == Piece(false, Code("")) {
        if i > 0 {
          assert pieces[i] == rest[i - 1];
        }
      }
    }
  }

  // Trimming the pieces is dropping the trailing empty lines of the print.
  lemma {:induction false} PrintTrim(pieces: seq<Piece>)
    requires EmptyOnlyInCode(pieces)
    ensures Print(TrimCode(pieces)) == DropEmpty(Print(pieces))
  {
    if pieces != [] {
      var front, last := pieces[..|pieces| - 1], pieces[|pieces| - 1];
      PrintAppend(front, [last]);
      assert front + [last] == pieces;
      assert Print([last]) == PrintPiece(last);
      if last.item == Code("") {
        PrintTrim(front);
        assert (Print(front) + [""])[..|Print(front)|] == Print(front);
      }
    }
  }

  lemma {:induction false} JoinAppend(sep: string, a: seq<string>, last: string)
    ensures Join(sep, a + [last]) == if a == [] then last else Join(sep, a) + sep + last
  {
    if a != [] {
      JoinAppend(sep, a[1..], last);
      assert (a + [last])[1..] == a[1..] + [last];
      if |a| == 1 {
        assert a[1..] + [last] == [last];
      }
    }
  }

  lemma {:induction false} StripRightJoin(lines: seq<string>)
    requires forall i :: 0 <= i < |lines| ==> '\n' !in lines[i]
    ensures StripRight(Join("\n", lines), {'\n'}) == Join("\n", DropEmpty(lines))
  {
    if lines != [] {
      var front, last := lines[..|lines| - 1], lines[|lines| - 1];
      var joined := Join("\n", lines);
      assert front + [last] == lines;
      JoinAppend("\n", front, last);
      if last == "" {
        StripRightJoin(front);
        if front != [] {
          assert joined[|joined| - 1] == '\n' && joined[..|joined| - 1] == Join("\n", front);
        }
      } else {
        assert joined[|joined| - 1] == last[|last| - 1];
        assert last[|last| - 1] in last;
      }
    }
  }

  lemma PrintedHead(pieces: seq<Piece>)
    requires WellFormed(pieces, None) && pieces != [] && !pieces[0].spaced
    ensures Print(pieces)[0] != ""
  {
    assert OpeningFence("") == None;
  }

  // Lines that came from splitting and are never rewritten hold no line ends.
  ghost predicate NoLineEnds(s: string) {
    '\n' !in s && '\r' !in s
  }

  ghost predicate AllClean(lines: seq<string>) {
    forall i :: 0 <= i < |lines| ==> NoLineEnds(lines[i])
  }

  lemma PrefixClean(s: string, line: string, hardBreak: bool)
    requires NoLineEnds(line) && s <= line
    ensures NoLineEnds(Line(Plain(s, hardBreak)))
  {
    assert forall c :: c in s ==> c in line;
  }

  lemma {:induction false} ReadNoLineEnds(lines: seq<string>, fence: Option<Fence>, spaced: bool, started: bool)
    requires AllClean(lines)
    ensures AllClean(Print(Read(lines, fence, spaced, started)))
    decreases lines
  {
    if lines != [] {
      var line, rest := lines[0], lines[1..];
      assert NoLineEnds(line) && AllClean(rest);
      if fence.Some? || OpeningFence(line).Some? {
        ReadNoLineEnds(rest, FenceAfter(line, fence), false, true);
        PrintHead(Piece(spaced, Code(line)), Read(rest, FenceAfter(line, fence), false, true));
      } else if IsBlank(line) {
        ReadNoLineEnds(rest, None, started, started);
      } else {
        ReadNoLineEnds(rest, None, false, true);
        StemOf(line);
        PrefixClean(Stem(line), line, TrailingSpaces(line) >= 2);
        PrintHead(Piece(spaced, Plain(Stem(line), TrailingSpaces(line) >= 2)), Read(rest, None, false, true));
      }
    }
  }

  lemma PrintHead(p: Piece, rest: seq<Piece>)
    requires NoLineEnds(Line(p.item)) && AllClean(Print(rest))
    ensures AllClean(Print([p] + rest))
  {
    assert ([p] + rest)[1..] == rest;
    assert Print([p] + rest) == PrintPiece(p) + Print(rest);
    assert AllClean(PrintPiece(p));
  }

  lemma {:induction false} ReplaceCrGone(s: string)
    ensures '\r' !in ReplaceCr(s)
  {
    if s != "" {
      ReplaceCrGone(s[1..]);
    }
  }

  lemma {:induction false} NoCrUnchanged(s: string)
    requires '\r' !in s
    ensures ReplaceCrLf(s) == s && ReplaceCr(s) == s
  {
    if s != "" {
      assert s[0] in s;
      NoCrUnchanged(s[1..]);
    }
  }

  lemma {:induction false} SplitKeeps(s: string, c: char, d: char)
    requires d !in s
    ensures forall i :: 0 <= i < |Split(s, c)| ==> d !in Split(s, c)[i]
  {
    if s != "" {
      SplitKeeps(s[1..], c, d);
      var rest := Split(s[1..], c);
      assert s[0] in s;
      forall i | 0 <= i < |Split(s, c)| ensures d !in Split(s, c)[i] {
        if s[0] != c && i == 0 {
          assert Split(s, c)[0] == [s[0]] + rest[0];
        }
      }
    }
  }

  lemma LinesHaveNoLineEnds(text: string)
    ensures AllClean(Lines(text))
  {
    ReplaceCrGone(ReplaceCrLf(text));
    SplitKeeps(ReplaceCr(ReplaceCrLf(text)), '\n', '\r');
  }

  lemma {:induction false} JoinNoCr(lines: seq<string>)
    requires AllClean(lines)
    ensures '\r' !in Join("\n", lines)
  {
    if |lines| > 1 {
      JoinNoCr(lines[1..]);
      assert NoLineEnds(lines[0]);
      var rest := Join("\n", lines[1..]);
      forall c | c in Join("\n", lines) ensures c != '\r' {
        assert c in lines[0] || c == '\n' || c in rest;
      }
    } else if |lines| == 1 {
      assert NoLineEnds(lines[0]);
    }
  }

  // The lines of a joined text are the lines it was joined from; no lines at all read back as one empty line.
  lemma LinesOfJoin(lines: seq<string>)
    requires AllClean(lines)
    ensures Lines(Join("\n", lines)) == if lines == [] then [""] else lines
  {
    JoinNoCr(lines);
    NoCrUnchanged(Join("\n", lines));
    if lines != [] {
      SplitJoin(lines, '\n');
    }
  }

  lemma MeaningShape(text: string)
    ensures var m := Meaning(text);
      && WellFormed(m, None)
      && (m != [] ==> !m[0].spaced)
      && AllClean(Print(m))
  {
    ReadWellFormed(Lines(text), None, false, false);
    LinesHaveNoLineEnds(text);
    ReadNoLineEnds(Lines(text), None, false, false);
  }

  // Stripping line ends off a print drops its trailing empty lines.
  lemma StripPrint(pieces: seq<Piece>)
    requires WellFormed(pieces, None) && (pieces != [] ==> !pieces[0].spaced) && AllClean(Print(pieces))
    ensures Strip(Join("\n", Print(pieces)), {'\n'}) == Join("\n", DropEmpty(Print(pieces)))
  {
    var printed := Print(pieces);
    var joined := Join("\n", printed);
    if pieces != [] {
      PrintedHead(pieces);
      assert NoLineEnds(printed[0]);
      assert joined[0] == printed[0][0] && printed[0][0] in printed[0];
    }
    assert StripLeft(joined, {'\n'}) == joined;
    StripRightJoin(printed);
  }

  // The normalised text is the print of the trimmed pieces.
  lemma NormalizedIsPrint(text: string)
    ensures var ps := TrimCode(Meaning(text));
      && Normalized(text) == Join("\n", Print(ps))
      && WellFormed(ps, None)
      && (ps != [] ==> !ps[0].spaced)
      && AllClean(Print(ps))
  {
    MeaningShape(text);
    StripPrint(Meaning(text));
    TrimmedShape(Meaning(text));
  }

  lemma TrimmedShape(m: seq<Piece>)
    requires WellFormed(m, None) && (m != [] ==> !m[0].spaced) && AllClean(Print(m))
    ensures var ps := TrimCode(m);
      && Print(ps) == DropEmpty(Print(m))
      && WellFormed(ps, None)
      && (ps != [] ==> !ps[0].spaced)
      && AllClean(Print(ps))
  {
    WellFormedEmpty(m, None);
    PrintTrim(m);
    TrimCodePrefix(m);
    WellFormedPrefix(m, None, |TrimCode(m)|);
    assert m[..|TrimCode(m)|] == TrimCode(m);
    DropEmptyPrefix(Print(m));
  }

  lemma {:induction false} DropEmptyPrefix(lines: seq<string>)
    ensures DropEmpty(lines) <= lines
  {
    if lines != [] && lines[|lines| - 1] == "" {
      DropEmptyPrefix(lines[..|lines| - 1]);
    }
  }

  // ---------- Main results ----------

  // Normalising keeps what a text says: every fenced line as it stands and in order, every other non-blank line
  // up to trailing white space with its hard break, and which neighbours a blank line separates. Only empty
  // lines at the end of an unclosed last fence go.
  lemma NormalizedKeepsMeaning(text: string)
    ensures Meaning(Normalized(text)) == TrimCode(Meaning(text))
    ensures FenceAfterAll(Meaning(text), None) == None ==> Meaning(Normalized(text)) == Meaning(text)
  {
    NormalizedIsPrint(text);
    var ps := TrimCode(Meaning(text));
    LinesOfJoin(Print(ps));
    if ps == [] {
      assert Read([""], None, false, false) == [];
    } else {
      PrintedHead(ps);
      ReadPrint(ps, None, false);
    }
    ReadWellFormed(Lines(text), None, false, false);
    if FenceAfterAll(Meaning(text), None) == None {
      ClosedKeepsAll(Meaning(text), None);
    }
  }

  // Normalising twice is normalising once, for every text.
  lemma NormalizedIdempotent(text: string)
    ensures Normalized(Normalized(text)) == Normalized(text)
  {
    NormalizedKeepsMeaning(text);
    NormalizedIsPrint(text);
    NormalizedIsPrint(Normalized(text));
    TrimCodePrefix(Meaning(text));
  }

  // A tidy text: outside fences no blank line comes first, last, or after another, blank lines are empty, and
  // text lines end in nothing or in exactly the two spaces of a hard break.
  predicate Tidy(lines: seq<string>, fence: Option<Fence>, blankAllowed: bool) {
    if lines == [] then true
    else if fence.Some? || OpeningFence(lines[0]).Some? then Tidy(lines[1..], FenceAfter(lines[0], fence), true)
    else if IsBlank(lines[0]) then lines[0] == "" && blankAllowed && |lines| > 1 && Tidy(lines[1..], None, false)
    else (lines[0] == Stem(lines[0]) || lines[0] == Stem(lines[0]) + "  ") && Tidy(lines[1..], None, true)
  }

  lemma {:induction false} PrintTidy(pieces: seq<Piece>, fence: Option<Fence>, blankAllowed: bool)
    requires WellFormed(pieces, fence)
    requires pieces != [] && pieces[0].spaced ==> blankAllowed
    ensures Tidy(Print(pieces), fence, blankAllowed)
    decreases |pieces|
  {
    if pieces != [] {
      var p, rest := pieces[0], pieces[1..];
      PrintTidy(rest, NextFence(p, fence), true);
      TidyHead(p, Print(rest), fence, blankAllowed);
      assert Print(pieces) == PrintPiece(p) + Print(rest);
    }
  }

  lemma TidyHead(p: Piece, rest: seq<string>, fence: Option<Fence>, blankAllowed: bool)
    requires HeadOk(p, fence) && (p.spaced ==> blankAllowed) && Tidy(rest, NextFence(p, fence), true)
    ensures Tidy(PrintPiece(p) + rest, fence, blankAllowed)
  {
    if p.item.Plain? {
      PlainReadsBack(p.item.stem, p.item.hardBreak);
    }
    var tail := [Line(p.item)] + rest;
    assert tail[1..] == rest;
    assert Tidy(tail, fence, !p.spaced && blankAllowed);
    if p.spaced {
      assert PrintPiece(p) + rest == [""] + tail;
      assert ([""] + tail)[1..] == tail;
      assert OpeningFence("") == None;
    } else {
      assert PrintPiece(p) + rest == tail;
    }
  }

  // Every normalised text that is not empty is tidy.
  lemma NormalizedTidy(text: string)
    ensures Normalized(text) == "" || Tidy(Lines(Normalized(text)), None, false)
  {
    NormalizedIsPrint(text);
    var ps := TrimCode(Meaning(text));
    LinesOfJoin(Print(ps));
    PrintTidy(ps, None, false);
  }

  // ---------- The program ----------

  // The lines that one input line adds to the output.
  function Emitted(line: string, fence: Option<Fence>, spaced: bool): seq<string> {
    if fence.Some? || OpeningFence(line).Some? then PrintPiece(Piece(spaced, Code(line)))
    else if IsBlank(line) then []
    else PrintPiece(Piece(spaced, Plain(Stem(line), TrailingSpaces(line) >= 2)))
  }

  // The output still to come from line n on.
  function Remaining(lines: seq<string>, n: nat, fence: Option<Fence>, spaced: bool, started: bool): seq<string>
    requires n <= |lines|
  {
    Print(Read(lines[n..], fence, spaced, started))
  }

  lemma RemainingNext(lines: seq<string>, n: nat, fence: Option<Fence>, spaced: bool, started: bool)
    requires n < |lines|
    ensures var emitted := Emitted(lines[n], fence, spaced);
      Remaining(lines, n, fence, spaced, started) == emitted +
        if emitted == [] then Remaining(lines, n + 1, None, started, started)
        else Remaining(lines, n + 1, FenceAfter(lines[n], fence), false, true)
  {
    assert lines[n..][1..] == lines[n + 1..];
    var line, rest := lines[n], lines[n + 1..];
    if fence.Some? || OpeningFence(line).Some? {
      PrintFirst(Piece(spaced, Code(line)), Read(rest, FenceAfter(line, fence), false, true));
    } else if !IsBlank(line) {
      PrintFirst(Piece(spaced, Plain(Stem(line), TrailingSpaces(line) >= 2)), Read(rest, None, false, true));
    }
  }

  lemma PrintFirst(p: Piece, rest: seq<Piece>)
    ensures Print([p] + rest) == PrintPiece(p) + Print(rest)
  {
    assert ([p] + rest)[1..] == rest;
  }

  // One line processed, the output and what remains still make up the whole.
  lemma LineDone(lines: seq<string>, n: nat, whole: seq<string>, output: seq<string>, pending: bool,
      fence: Option<Fence>,
      output': seq<string>, pending': bool, fence': Option<Fence>)
    requires n < |lines| && (fence.Some? ==> !pending)
    requires whole == output + Remaining(lines, n, fence, pending && output != [], output != [])
    requires var emitted := Emitted(lines[n], fence, pending && output != []);
      && output' == output + emitted
      && pending' == (emitted == [])
      && fence' == if emitted == [] then None else FenceAfter(lines[n], fence)
    ensures fence'.Some? ==> !pending'
    ensures whole == output' + Remaining(lines, n + 1, fence', pending' && output' != [], output' != [])
  {
    var emitted := Emitted(lines[n], fence, pending && output != []);
    var before := Remaining(lines, n, fence, pending && output != [], output != []);
    var after := Remaining(lines, n + 1, fence', pending' && output' != [], output' != []);
    assert before == emitted + after by {
      RemainingNext(lines, n, fence, pending && output != [], output != []);
    }
    SplitWhole(whole, output, emitted, before, after, output');
  }

  lemma SplitWhole<T>(whole: seq<T>, a: seq<T>, b: seq<T>, bc: seq<T>, c: seq<T>, ab: seq<T>)
    requires whole == a + bc && bc == b + c && ab == a + b
    ensures whole == ab + c
  {
  }

  lemma NothingRemains(lines: seq<string>, fence: Option<Fence>, spaced: bool, started: bool)
    ensures Remaining(lines, |lines|, fence, spaced, started) == []
  {
  }

  lemma WholeIsPrint(text: string)
    ensures Remaining(Lines(text), 0, None, false, false) == Print(Meaning(text))
  {
    assert Lines(text)[0..] == Lines(text);
  }

  // _normalize_markdown.
  method NormalizeMarkdown(markdownText: string) returns (result: string)
    ensures result == Normalized(markdownText)
  {
    var lines := Lines(markdownText);
    var output: seq<string> := [];
    var pendingBlank := false;
    var fence: Option<Fence> := None;
    ghost var whole := Remaining(lines, 0, None, false, false);
    for n := 0 to |lines|
      invariant fence.Some? ==> !pendingBlank
      invariant whole ==
        output + Remaining(lines, n, fence, pendingBlank && output != [], output != [])
    {
      ghost var before := (output, pendingBlank, fence);
      output, pendingBlank, fence := NormalizeLine(lines[n], output, pendingBlank, fence);
      LineDone(lines, n, whole, before.0, before.1, before.2, output, pendingBlank, fence);
    }
    NothingRemains(lines, fence, pendingBlank && output != [], output != []);
    assert output == whole;
    WholeIsPrint(markdownText);
    result := Strip(Join("\n", output), {'\n'});
  }

  // The body of the line loop.
  method NormalizeLine(line: string, output: seq<string>, pendingBlank: bool, fence: Option<Fence>)
    returns (output': seq<string>, pendingBlank': bool, fence': Option<Fence>)
    requires fence.Some? ==> !pendingBlank
    ensures var emitted := Emitted(line, fence, pendingBlank && output != []);
      && output' == output + emitted
      && pendingBlank' == (emitted == [])
      && fence' == if emitted == [] then None else FenceAfter(line, fence)
  {
    output', pendingBlank', fence' := output, pendingBlank, fence;
    if fence.Some? {
      output' := output' + [line];
      if IsClosingFence(line, fence.value) {
        fence' := None;
      }
      return;
    }
    var opening := OpeningFence(line);
    if opening.Some? {
      if pendingBlank && output != [] {
        output' := output' + [""];
      }
      pendingBlank' := false;
      output' := output' + [line];
      fence' := opening;
      return;
    }
    if IsBlank(line) {
      pendingBlank' := true;
      return;
    }
    if pendingBlank && output != [] {
      output' := output' + [""];
    }
    pendingBlank' := false;
    if TrailingSpaces(line) >= 2 {
      output' := output' + [Stem(line) + "  "];
    } else {
      output' := output' + [Stem(line)];
    }
  }
}
