// Table rows as they are written and as the formatter writes them (docreader/parser/markdown_parser.py).
module MarkdownWritten {
  import opened Wrappers
  import opened Text
  import opened MarkdownRows
  import opened MarkdownLines

  // ---------- A row as it is written ----------

  // The text of a cell and the white space before and after it.
  datatype CellText = CellText(before: string, text: string, after: string)

  // Each part closed by a pipe.
  function Bars(parts: seq<string>): string {
    if parts == [] then "" else parts[0] + "|" + Bars(parts[1..])
  }

  function Raw(cells: seq<CellText>): seq<string> {
    seq(|cells|, i requires 0 <= i < |cells| => cells[i].before + cells[i].text + cells[i].after)
  }

  function Texts(cells: seq<CellText>): seq<string> {
    seq(|cells|, i requires 0 <= i < |cells| => cells[i].text)
  }

  // A row: spaces and tabs, the cells between pipes, and spaces and tabs.
  function RowText(indent: string, cells: seq<CellText>, trail: string): string {
    indent + ("|" + Bars(Raw(cells))) + trail
  }

  // Blanks: white space other than line ends.
  predicate IsBlanks(s: string) {
    forall i :: 0 <= i < |s| ==> IsWhite(s[i]) && s[i] != '\r' && s[i] != '\n'
  }

  predicate SpacesAndTabs(s: string) {
    forall i :: 0 <= i < |s| ==> s[i] == ' ' || s[i] == '\t'
  }

  predicate IsCellText(c: CellText) {
    && IsBlanks(c.before) && IsBlanks(c.after)
    && (c.text != "" ==> !IsWhite(c.text[0]) && !IsWhite(c.text[|c.text| - 1]))
    && '|' !in c.text && '\r' !in c.text && '\n' !in c.text
  }

  predicate IsRow(indent: string, cells: seq<CellText>, trail: string) {
    && SpacesAndTabs(indent) && SpacesAndTabs(trail) && cells != []
    && forall i :: 0 <= i < |cells| ==> IsCellText(cells[i])
  }

  // ---------- What its cells are ----------

  lemma {:induction false} JoinBars(parts: seq<string>)
    ensures Join("|", parts + [""]) == Bars(parts)
  {
    if parts == [] {
      assert parts + [""] == [""];
    } else {
      JoinBars(parts[1..]);
      assert (parts + [""])[1..] == parts[1..] + [""];
    }
  }

  lemma BarsJoin(parts: seq<string>)
    ensures "|" + Bars(parts) == Join("|", [""] + (parts + [""]))
  {
    JoinBars(parts);
    assert ([""] + (parts + [""]))[1..] == parts + [""];
    assert "" + "|" + Bars(parts) == "|" + Bars(parts);
  }

  lemma SplitBars(parts: seq<string>)
    requires forall i :: 0 <= i < |parts| ==> '|' !in parts[i]
    ensures Split("|" + Bars(parts), '|') == [""] + parts + [""]
  {
    BarsJoin(parts);
    Assoc([""], parts, [""]);
    var all := [""] + parts + [""];
    forall i | 0 <= i < |all| ensures '|' !in all[i] {
      if 0 < i < |all| - 1 {
        assert all[i] == parts[i - 1];
      }
    }
    SplitJoin(all, '|');
  }

  lemma {:induction false} BarsEnd(parts: seq<string>)
    requires parts != []
    ensures Bars(parts) != "" && Bars(parts)[|Bars(parts)| - 1] == '|'
  {
    if |parts| > 1 {
      BarsEnd(parts[1..]);
    } else {
      assert Bars(parts[1..]) == "";
    }
  }

  lemma BlanksWhite(s: string)
    requires IsBlanks(s)
    ensures AllIn(s, WHITESPACE) && '|' !in s && '\r' !in s && '\n' !in s
  {
    forall i | 0 <= i < |s| ensures s[i] in WHITESPACE {
      WhitespaceIs(s[i]);
    }
  }

  lemma CellTextStripped(c: CellText)
    requires IsCellText(c)
    ensures Strip(c.before + c.text + c.after, WHITESPACE) == c.text
    ensures '|' !in c.before + c.text + c.after && '\r' !in c.before + c.text + c.after
  {
    BlanksWhite(c.before);
    BlanksWhite(c.after);
    if c.text == "" {
      assert c.before + c.text + c.after == c.before + c.after;
      StripRightBlank(c.before + c.after, WHITESPACE);
      assert StripRight("", WHITESPACE) == "";
    } else {
      WhitespaceIs(c.text[0]);
      WhitespaceIs(c.text[|c.text| - 1]);
      StripPadded(c.before, c.text, c.after, WHITESPACE);
    }
  }

  lemma SpacesIn(s: string)
    requires SpacesAndTabs(s)
    ensures AllIn(s, SPACE_TAB) && AllIn(s, WHITESPACE) && '\r' !in s
  {
    BlankIsWhite(s);
  }

  lemma RowStripped(indent: string, cells: seq<CellText>, trail: string, cs: set<char>)
    requires IsRow(indent, cells, trail) && AllIn(indent, cs) && AllIn(trail, cs) && '|' !in cs
    ensures Strip(RowText(indent, cells, trail), cs) == "|" + Bars(Raw(cells))
  {
    var row := "|" + Bars(Raw(cells));
    BarsEnd(Raw(cells));
    assert row[|row| - 1] == '|';
    StripPadded(indent, row, trail, cs);
  }

  // The cells of a row are the texts between its pipes.
  lemma RowCells(indent: string, cells: seq<CellText>, trail: string)
    requires IsRow(indent, cells, trail)
    ensures Cells(RowText(indent, cells, trail)) == Texts(cells)
  {
    var row := "|" + Bars(Raw(cells));
    SpacesIn(indent);
    SpacesIn(trail);
    SpecialChars();
    RowStripped(indent, cells, trail, WHITESPACE);
    forall i | 0 <= i < |cells| ensures '|' !in Raw(cells)[i] && StripAll(Raw(cells))[i] == cells[i].text {
      CellTextStripped(cells[i]);
    }
    SplitBars(Raw(cells));
    CellsFromParts(RowText(indent, cells, trail), row, Raw(cells));
    assert StripAll(Raw(cells)) == Texts(cells);
  }

  // ---------- What the formatter writes ----------

  // A row with one space on either side of every cell.
  function Neat(indent: string, texts: seq<string>): string {
    indent + ("|" + Bars(seq(|texts|, i requires 0 <= i < |texts| => " " + texts[i] + " ")))
  }

  // Colons and dashes only, as in the second row of a table.
  predicate IsAlignment(text: string) {
    text != "" && forall i :: 0 <= i < |text| ==> text[i] == ':' || text[i] == '-'
  }

  // Three dashes, with a colon at an end where there was one.
  function Aligned(text: string): string {
    (if text != "" && text[0] == ':' then ":---" else "---") +
    (if text != "" && text[|text| - 1] == ':' then ":" else "")
  }

  function AlignedAll(texts: seq<string>): seq<string> {
    seq(|texts|, i requires 0 <= i < |texts| => Aligned(texts[i]))
  }

  lemma StandardIs(texts: seq<string>)
    ensures StandardAll(texts) == AlignedAll(texts)
  {
    forall i | 0 <= i < |texts| ensures Standard(texts[i]) == Aligned(texts[i]) {
    }
  }

  lemma PrintedNeat(texts: seq<string>)
    requires texts != []
    ensures PrintRow(texts) == Neat("", texts)
  {
    var padded := seq(|texts|, i requires 0 <= i < |texts| => " " + texts[i] + " ");
    PrintAsJoin(texts);
    assert Padded(texts) == padded;
    JoinBars(padded);
    assert PrintRow(texts) == "|" + (" " + Join(" | ", texts) + " |");
    assert "" + ("|" + Bars(padded)) == "|" + Bars(padded);
  }

  lemma NeatIndent(indent: string, texts: seq<string>)
    ensures indent + Neat("", texts) == Neat(indent, texts)
  {
    var row := "|" + Bars(seq(|texts|, i requires 0 <= i < |texts| => " " + texts[i] + " "));
    assert "" + row == row;
  }

  lemma {:induction false} BarsChars(parts: seq<string>, x: char)
    requires x != '|' && forall i :: 0 <= i < |parts| ==> x !in parts[i]
    ensures x !in Bars(parts)
  {
    if parts != [] {
      BarsChars(parts[1..], x);
    }
  }

  lemma RowIsRow(indent: string, cells: seq<CellText>, trail: string)
    requires IsRow(indent, cells, trail)
    ensures IsRowLine(RowText(indent, cells, trail)) && Indent(RowText(indent, cells, trail)) == indent
  {
    var row := "|" + Bars(Raw(cells));
    SpacesIn(indent);
    SpacesIn(trail);
    RowStripped(indent, cells, trail, SPACE_TAB);
    BarsEnd(Raw(cells));
    assert row[|row| - 1] == '|';
    forall i | 0 <= i < |cells| ensures '\r' !in Raw(cells)[i] {
      CellTextStripped(cells[i]);
    }
    BarsChars(Raw(cells), '\r');
    Assoc(indent, row, trail);
    IndentOf(indent, row + trail);
  }

  // The first pass.
  lemma RowNeat(indent: string, cells: seq<CellText>, trail: string)
    requires IsRow(indent, cells, trail)
    ensures FormatLine(RowText(indent, cells, trail)) == Neat(indent, Texts(cells))
  {
    RowIsRow(indent, cells, trail);
    RowCells(indent, cells, trail);
    PrintedNeat(Texts(cells));
    NeatIndent(indent, Texts(cells));
  }

  lemma AlignPartIs(text: string)
    requires text != "" ==> text[0] !in SPACE_TAB && text[|text| - 1] !in SPACE_TAB
    ensures IsAlignPart(" " + text + " ") <==> IsAlignment(text)
  {
    var part := " " + text + " ";
    if text == "" {
      StripRightBlank(part, SPACE_TAB);
      assert StripRight("", SPACE_TAB) == "";
    } else {
      StripPadded(" ", text, " ", SPACE_TAB);
    }
  }

  predicate AllAlign(texts: seq<string>) {
    forall i :: 0 <= i < |texts| ==> IsAlignment(texts[i])
  }

  predicate AreTexts(texts: seq<string>) {
    texts != [] && forall i :: 0 <= i < |texts| ==> IsText(texts[i])
  }

  predicate IsText(text: string) {
    '|' !in text && (text != "" ==> !IsWhite(text[0]) && !IsWhite(text[|text| - 1]))
  }

  lemma TextsAreTexts(indent: string, cells: seq<CellText>, trail: string)
    requires IsRow(indent, cells, trail)
    ensures AreTexts(Texts(cells))
  {
    forall i | 0 <= i < |cells| ensures IsText(Texts(cells)[i]) {
      assert IsCellText(cells[i]);
    }
  }

  lemma TextIsCell(text: string)
    requires IsText(text)
    ensures IsCell(text) && (text != "" ==> text[0] !in SPACE_TAB && text[|text| - 1] !in SPACE_TAB)
  {
    if text != "" {
      WhitespaceIs(text[0]);
      WhitespaceIs(text[|text| - 1]);
      StripPadded("", text, "", WHITESPACE);
      assert "" + text + "" == text;
    } else {
      StripRightBlank("", WHITESPACE);
    }
  }

  lemma NeatParts(indent: string, texts: seq<string>)
    requires SpacesAndTabs(indent) && AreTexts(texts)
    ensures var t := Strip(Neat(indent, texts), SPACE_TAB);
      Piped(t) && Split(t, '|') == [""] + Padded(texts) + [""]
    ensures Indent(Neat(indent, texts)) == indent && Cells(Neat(indent, texts)) == texts
  {
    forall i | 0 <= i < |texts| ensures IsCell(texts[i]) {
      TextIsCell(texts[i]);
    }
    SpacesIn(indent);
    PrintedNeat(texts);
    NeatIndent(indent, texts);
    SplitPrinted(indent, texts);
    PrintedParts(texts);
    var row := PrintRow(texts);
    IndentOf(indent, row);
    assert row[|row| - 1] == '|';
    StripPadded(indent, row, "", SPACE_TAB);
    assert indent + row + "" == indent + row;
  }

  lemma NeatAligns(indent: string, texts: seq<string>)
    requires SpacesAndTabs(indent) && AreTexts(texts)
    ensures IsAlignLine(Neat(indent, texts)) <==> AllAlign(texts)
  {
    NeatParts(indent, texts);
    var parts := [""] + Padded(texts) + [""];
    forall i | 0 <= i < |texts| ensures IsAlignPart(parts[i + 1]) <==> IsAlignment(texts[i]) {
      TextIsCell(texts[i]);
      AlignPartIs(texts[i]);
    }
    if AllAlign(texts) {
      forall i | 0 < i < |parts| - 1 ensures IsAlignPart(parts[i]) {
        assert IsAlignment(texts[i - 1]);
      }
    }
    if IsAlignLine(Neat(indent, texts)) {
      forall i | 0 <= i < |texts| ensures IsAlignment(texts[i]) {
        assert IsAlignPart(parts[i + 1]);
      }
    }
  }

  // The second pass: alignment rows.
  lemma NeatAligned(indent: string, texts: seq<string>)
    requires SpacesAndTabs(indent) && AreTexts(texts)
    ensures AlignLine(Neat(indent, texts)) ==
      if AllAlign(texts) then Neat(indent, AlignedAll(texts)) else Neat(indent, texts)
  {
    NeatAligns(indent, texts);
    NeatParts(indent, texts);
    if AllAlign(texts) {
      StandardIs(texts);
      PrintedNeat(AlignedAll(texts));
      NeatIndent(indent, AlignedAll(texts));
    }
  }

  // A row comes out with its indentation and its cells, one space on either side of each; a row of nothing but colons
  // and dashes comes out as an alignment row.
  lemma RowFormatted(indent: string, cells: seq<CellText>, trail: string)
    requires IsRow(indent, cells, trail)
    ensures var texts := Texts(cells);
      Format(RowText(indent, cells, trail)) ==
        if AllAlign(texts) then Neat(indent, AlignedAll(texts)) else Neat(indent, texts)
  {
    RowNeat(indent, cells, trail);
    TextsAreTexts(indent, cells, trail);
    NeatAligned(indent, Texts(cells));
  }

  // ---------- What a row is taken for ----------

  // Three dashes or more, with or without a colon at either end.
  ghost predicate IsDashes(text: string) {
    exists left: bool, n: nat, right: bool :: n >= 3 && IsDashRun(text, left, n, right)
  }

  predicate IsDashRun(text: string, left: bool, n: nat, right: bool) {
    text == (if left then ":" else "") + seq(n, i => '-') + (if right then ":" else "")
  }

  lemma DelimiterIff(text: string)
    ensures IsDelimiter(text) <==> IsDashes(text)
  {
    if IsDelimiter(text) {
      DelimiterParts(text);
    }
    if IsDashes(text) {
      var left: bool, n: nat, right: bool :| n >= 3 && IsDashRun(text, left, n, right);
      DashesDelimit(text, left, n, right);
    }
  }

  lemma DelimiterParts(text: string)
    requires IsDelimiter(text)
    ensures IsDashes(text)
  {
    var left := text != "" && text[0] == ':';
    var tail := if left then text[1..] else text;
    var right := tail != "" && tail[|tail| - 1] == ':';
    var core := if right then tail[..|tail| - 1] else tail;
    assert core == seq(|core|, i => '-');
    assert IsDashRun(text, left, |core|, right);
  }

  lemma DashesDelimit(text: string, left: bool, n: nat, right: bool)
    requires n >= 3 && IsDashRun(text, left, n, right)
    ensures IsDelimiter(text)
  {
    CoreDelimits(seq(n, i => '-'), left, right);
  }

  lemma CoreDelimits(core: string, left: bool, right: bool)
    requires |core| >= 3 && AllDashes(core)
    ensures IsDelimiter((if left then ":" else "") + core + (if right then ":" else ""))
  {
    var tail := core + if right then ":" else "";
    var text := (if left then ":" else "") + tail;
    assert (if left then ":" else "") + core + (if right then ":" else "") == text;
    assert tail[0] == core[0] == '-' && core[|core| - 1] == '-';
    assert (if left then text[1..] else text) == tail;
    assert (if right then tail[..|tail| - 1] else tail) == core;
  }

  // A row separates a header from a table exactly if all its cells are such dashes, and is an empty row exactly if all
  // its cells are empty.
  lemma RowKinds(indent: string, cells: seq<CellText>, trail: string)
    requires IsRow(indent, cells, trail)
    ensures var line := RowText(indent, cells, trail);
      && IsTableRow(line)
      && (IsSeparatorRow(line) <==> forall i :: 0 <= i < |cells| ==> IsDashes(cells[i].text))
      && (IsEmptyRow(line) <==> forall i :: 0 <= i < |cells| ==> cells[i].text == "")
  {
    hide IsDelimiter, IsDashes, RowText, Cells;
    RowIsRow(indent, cells, trail);
    PipedIsRow(RowText(indent, cells, trail));
    RowCells(indent, cells, trail);
    forall i | 0 <= i < |cells| ensures IsDelimiter(Texts(cells)[i]) <==> IsDashes(cells[i].text) {
      DelimiterIff(cells[i].text);
    }
  }

  // The separator put under a header has three dashes for each of its cells.
  lemma SeparatorUnder(indent: string, cells: seq<CellText>, trail: string)
    requires IsRow(indent, cells, trail)
    ensures SeparatorRowFor(RowText(indent, cells, trail)) == Neat("", seq(|cells|, i => "---"))
  {
    RowCells(indent, cells, trail);
    assert Dashes(|cells|) == seq(|cells|, i => "---");
    PrintedNeat(Dashes(|cells|));
  }
}
