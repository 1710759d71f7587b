// Formatting of single table lines (docreader/parser/markdown_parser.py, format_table).
module MarkdownLines {
  import opened Text
  import opened MarkdownRows

  // ---------- Row tests ----------

  predicate IsTableRow(line: string) {
    var stripped := Strip(line, WHITESPACE);
    stripped != "" && stripped[0] == '|' && '|' in stripped[1..]
  }

  predicate AllDashes(s: string) {
    forall i :: 0 <= i < |s| ==> s[i] == '-'
  }

  // Three dashes or more, with a colon at either end allowed.
  predicate IsDelimiter(cell: string) {
    var tail := if cell != "" && cell[0] == ':' then cell[1..] else cell;
    var core := if tail != "" && tail[|tail| - 1] == ':' then tail[..|tail| - 1] else tail;
    |core| >= 3 && AllDashes(core)
  }

  predicate IsSeparatorRow(line: string) {
    var cells := Cells(line);
    cells != [] && forall i :: 0 <= i < |cells| ==> IsDelimiter(cells[i])
  }

  predicate IsEmptyRow(line: string) {
    var cells := Cells(line);
    cells != [] && forall i :: 0 <= i < |cells| ==> cells[i] == ""
  }

  // ---------- Formatting ----------

  // The leading spaces and tabs.
  function Indent(line: string): string {
    StripLeftSplits(line, SPACE_TAB);
    line[..|line| - |StripLeft(line, SPACE_TAB)|]
  }

  predicate Piped(t: string) {
    |t| >= 2 && t[0] == '|' && t[|t| - 1] == '|'
  }

  // What line_pattern matches.
  predicate IsRowLine(line: string) {
    Piped(Strip(line, SPACE_TAB)) && '\r' !in line
  }

  predicate IsAlignPart(part: string) {
    var c := Strip(part, SPACE_TAB);
    c != "" && forall i :: 0 <= i < |c| ==> c[i] == ':' || c[i] == '-'
  }

  // What align_pattern matches: between the outer pipes only colons and dashes.
  predicate IsAlignLine(line: string) {
    var t := Strip(line, SPACE_TAB);
    var parts := Split(t, '|');
    Piped(t) && forall i :: 0 < i < |parts| - 1 ==> IsAlignPart(parts[i])
  }

  function FormatLine(line: string): string {
    if IsRowLine(line) then Indent(line) + PrintRow(Cells(line)) else line
  }

  function Standard(cell: string): string {
    (if cell != "" && cell[0] == ':' then ":" else "") + "---" +
    (if cell != "" && cell[|cell| - 1] == ':' then ":" else "")
  }

  function StandardAll(cells: seq<string>): (r: seq<string>)
    ensures |r| == |cells|
  {
    seq(|cells|, i requires 0 <= i < |cells| => Standard(cells[i]))
  }

  function AlignLine(line: string): string {
    if IsAlignLine(line) then Indent(line) + PrintRow(StandardAll(Cells(line))) else line
  }

  // Both substitutions on one line: neither pattern matches across a line feed.
  function Format(line: string): string {
    AlignLine(FormatLine(line))
  }

  // ---------- Table rows have cells ----------

  lemma {:induction false} SplitMany(s: string, c: char)
    ensures |Split(s, c)| >= 2 <==> c in s
  {
    if s != "" {
      SplitMany(s[1..], c);
      assert s == [s[0]] + s[1..];
    }
  }

  lemma TableRowCells(line: string)
    requires IsTableRow(line)
    ensures Cells(line) != []
  {
    var inner := Strip(line, WHITESPACE);
    SplitMany(inner[1..], '|');
    assert Split(inner, '|') == [""] + Split(inner[1..], '|');
  }

  lemma PipedIsRow(line: string)
    requires Piped(Strip(line, SPACE_TAB))
    ensures IsTableRow(line)
  {
    var left := StripLeft(line, SPACE_TAB);
    var t := Strip(line, SPACE_TAB);
    StripLeftSplits(line, SPACE_TAB);
    StripRightSplits(left, SPACE_TAB);
    var p, q := line[..|line| - |left|], left[|t|..];
    assert line == p + t + q;
    assert AllIn(p, SPACE_TAB) && AllIn(q, SPACE_TAB);
    SpecialChars();
    StripPadded(p, t, q, WHITESPACE);
    assert t[1..][|t| - 2] == '|';
  }

  // ---------- Formatted lines ----------

  lemma IndentOf(indent: string, row: string)
    requires AllIn(indent, SPACE_TAB) && row != "" && row[0] !in SPACE_TAB
    ensures Indent(indent + row) == indent
  {
    StripLeftOf(indent, row, SPACE_TAB);
    assert (indent + row)[..|indent|] == indent;
  }

  lemma IndentBlank(line: string)
    ensures AllIn(Indent(line), SPACE_TAB) && AllIn(Indent(line), WHITESPACE)
    ensures forall x :: x in Indent(line) ==> x in line
  {
    StripLeftSplits(line, SPACE_TAB);
    SpecialChars();
    BlankIsWhite(Indent(line));
  }

  lemma BlankIsWhite(s: string)
    requires AllIn(s, SPACE_TAB)
    ensures AllIn(s, WHITESPACE)
  {
    SpecialChars();
    forall i | 0 <= i < |s| ensures s[i] in WHITESPACE {
      assert s[i] == ' ' || s[i] == '\t';
    }
  }

  // A printed row is its own formatting.
  lemma PrintedFixed(indent: string, cells: seq<string>)
    requires AllIn(indent, SPACE_TAB) && cells != [] && AreCells(cells)
    ensures var line := indent + PrintRow(cells);
      && Cells(line) == cells && Indent(line) == indent
      && FormatLine(line) == line
      && (StandardAll(cells) == cells ==> AlignLine(line) == line)
      && IsTableRow(line)
  {
    var row := PrintRow(cells);
    BlankIsWhite(indent);
    SplitPrinted(indent, cells);
    SpecialChars();
    IndentOf(indent, row);
    assert indent + row + "" == indent + row;
    StripPadded(indent, row, "", SPACE_TAB);
    assert row[|row| - 1] == '|';
    PipedIsRow(indent + row);
  }

  lemma StandardCell(c: string)
    ensures IsCell(Standard(c)) && Standard(Standard(c)) == Standard(c)
    ensures forall x :: x in Standard(c) ==> x == ':' || x == '-'
  {
    var s := Standard(c);
    assert (s[0] == ':' || s[0] == '-') && (s[|s| - 1] == ':' || s[|s| - 1] == '-');
    SpecialChars();
    assert "" + s + "" == s;
    StripPadded("", s, "", WHITESPACE);
  }

  lemma StandardCells(cells: seq<string>)
    ensures AreCells(StandardAll(cells)) && StandardAll(StandardAll(cells)) == StandardAll(cells)
  {
    forall i | 0 <= i < |cells|
      ensures IsCell(StandardAll(cells)[i]) && Standard(Standard(cells[i])) == Standard(cells[i])
    {
      StandardCell(cells[i]);
    }
  }

  lemma FormatLineCells(line: string)
    requires IsRowLine(line)
    ensures Cells(FormatLine(line)) == Cells(line) != [] && Indent(FormatLine(line)) == Indent(line)
    ensures FormatLine(FormatLine(line)) == FormatLine(line) && IsTableRow(FormatLine(line)) && IsTableRow(line)
  {
    PipedIsRow(line);
    TableRowCells(line);
    CellsOfRow(line);
    IndentBlank(line);
    PrintedFixed(Indent(line), Cells(line));
  }

  lemma AlignLineCells(line: string)
    requires IsAlignLine(line)
    ensures var r := AlignLine(line);
      && Cells(r) == StandardAll(Cells(line)) && Indent(r) == Indent(line)
      && FormatLine(r) == r && AlignLine(r) == r && IsTableRow(r) && IsTableRow(line)
  {
    PipedIsRow(line);
    TableRowCells(line);
    StandardCells(Cells(line));
    IndentBlank(line);
    PrintedFixed(Indent(line), StandardAll(Cells(line)));
  }

  // Row and alignment formatting, together, change nothing the second time.
  lemma FormatTwice(line: string)
    ensures Format(Format(line)) == Format(line)
  {
    var formatted := FormatLine(line);
    if IsRowLine(line) {
      FormatLineCells(line);
    }
    if IsAlignLine(formatted) {
      AlignLineCells(formatted);
    }
  }

  // Only table rows are changed; they stay table rows with the same indentation, and with the same cells unless all
  // their cells consist of colons and dashes.
  lemma FormatKeeps(line: string)
    ensures IsTableRow(Format(line)) <==> IsTableRow(line)
    ensures !IsTableRow(line) ==> Format(line) == line
    ensures Indent(Format(line)) == Indent(line)
    ensures Cells(Format(line)) ==
      if IsAlignLine(FormatLine(line)) then StandardAll(Cells(line)) else Cells(line)
  {
    var formatted := FormatLine(line);
    if IsRowLine(line) {
      FormatLineCells(line);
    }
    if IsAlignLine(formatted) {
      AlignLineCells(formatted);
    }
  }

  lemma {:induction false} JoinChars(sep: string, parts: seq<string>, x: char)
    requires x !in sep && forall i :: 0 <= i < |parts| ==> x !in parts[i]
    ensures x !in Join(sep, parts)
  {
    if |parts| > 1 {
      JoinChars(sep, parts[1..], x);
    }
  }

  lemma PrintedChars(indent: string, cells: seq<string>)
    requires '\n' !in indent && forall i :: 0 <= i < |cells| ==> '\n' !in cells[i]
    ensures '\n' !in indent + PrintRow(cells)
  {
    JoinChars(" | ", cells, '\n');
  }

  lemma FormatOneLine(line: string)
    requires '\n' !in line
    ensures '\n' !in Format(line)
  {
    var formatted := FormatLine(line);
    if IsRowLine(line) {
      CellsOfRow(line);
      IndentBlank(line);
      PrintedChars(Indent(line), Cells(line));
    }
    if IsAlignLine(formatted) {
      IndentBlank(formatted);
      forall i | 0 <= i < |StandardAll(Cells(formatted))| ensures '\n' !in StandardAll(Cells(formatted))[i] {
        StandardCell(Cells(formatted)[i]);
      }
      PrintedChars(Indent(formatted), StandardAll(Cells(formatted)));
    }
  }

  // ---------- Delimiter rows ----------

  function Dashes(n: nat): (r: seq<string>)
    ensures |r| == n
  {
    seq(n, i requires 0 <= i < n => "---")
  }

  // The delimiter row inserted below a row.
  function SeparatorRowFor(header: string): string {
    PrintRow(Dashes(|Cells(header)|))
  }

  lemma DashesAreCells(n: nat)
    ensures AreCells(Dashes(n)) && StandardAll(Dashes(n)) == Dashes(n)
    ensures forall i :: 0 <= i < n ==> IsDelimiter(Dashes(n)[i])
  {
    StandardCell("");
    assert Standard("") == "---" && Standard("---") == "---";
    forall i | 0 <= i < n ensures IsCell(Dashes(n)[i]) {}
  }

  lemma PrintedSeparator(cells: seq<string>)
    requires cells != [] && AreCells(cells) && StandardAll(cells) == cells && cells[0] != ""
    requires forall i :: 0 <= i < |cells| ==> IsDelimiter(cells[i]) && '\n' !in cells[i]
    ensures var s := PrintRow(cells);
      && Cells(s) == cells && IsTableRow(s) && IsSeparatorRow(s) && !IsEmptyRow(s) && Format(s) == s && '\n' !in s
  {
    var s := PrintRow(cells);
    PrintedFixed("", cells);
    assert "" + s == s;
    PrintedChars("", cells);
  }

  // It is a separator row with as many cells as the row above it, already formatted.
  lemma SeparatorFor(header: string)
    requires IsTableRow(header)
    ensures var s := SeparatorRowFor(header);
      && IsTableRow(s) && IsSeparatorRow(s) && !IsEmptyRow(s)
      && |Cells(s)| == |Cells(header)| && Format(s) == s && '\n' !in s
      && SeparatorRowFor(s) == s
  {
    TableRowCells(header);
    var cells := Dashes(|Cells(header)|);
    DashesAreCells(|Cells(header)|);
    assert cells[0] == "---";
    PrintedSeparator(cells);
  }

  lemma SeparatorNotEmpty(line: string)
    requires IsSeparatorRow(line)
    ensures !IsEmptyRow(line)
  {
    assert IsDelimiter(Cells(line)[0]);
  }
}
