// Formatting all tables of a Markdown document (docreader/parser/markdown_parser.py, format_table).
module MarkdownDocument {
  import opened Text
  import opened MarkdownRows
  import opened MarkdownLines
  import opened MarkdownTables

  // The table utility: its row tests and its line formatting.
  const UTIL := Grammar(IsTableRow, IsSeparatorRow, IsEmptyRow, SeparatorRowFor)

  function MapLines(f: string -> string, lines: seq<string>): (r: seq<string>)
    ensures |r| == |lines|
  {
    seq(|lines|, i requires 0 <= i < |lines| => f(lines[i]))
  }

  // format_table: every line formatted, then every table repaired.
  function FormatWith(g: Grammar, f: string -> string, content: string): string {
    Join("\n", Normalize(g, MapLines(f, Split(content, '\n'))))
  }

  function FormatTable(content: string): string {
    FormatWith(UTIL, Format, content)
  }

  // ---------- Lines that formatting leaves alone ----------

  // Formatting twice is formatting once; lines outside tables are left alone, rows stay rows on one line, and so do
  // inserted rows.
  ghost predicate FormatsLine(g: Grammar, f: string -> string, line: string) {
    && f(f(line)) == f(line)
    && g.isRow(f(line)) == g.isRow(line)
    && (!g.isRow(line) ==> f(line) == line)
    && ('\n' !in line ==> '\n' !in f(line))
    && (g.isRow(line) ==> f(g.separatorFor(line)) == g.separatorFor(line) && '\n' !in g.separatorFor(line))
  }

  ghost predicate Formats(g: Grammar, f: string -> string) {
    forall line {:trigger FormatsLine(g, f, line)} :: FormatsLine(g, f, line)
  }

  lemma UtilLawful()
    ensures Lawful(UTIL)
  {
    forall line ensures UTIL.isSeparator(line) ==> !UTIL.isEmpty(line) {
      if IsSeparatorRow(line) {
        SeparatorNotEmpty(line);
      }
    }
    forall line | UTIL.isRow(line) ensures Inserts(UTIL, line) {
      SeparatorFor(line);
    }
  }

  lemma UtilFormats()
    ensures Formats(UTIL, Format)
  {
    forall line ensures FormatsLine(UTIL, Format, line) {
      FormatTwice(line);
      FormatKeeps(line);
      if '\n' !in line {
        FormatOneLine(line);
      }
      if IsTableRow(line) {
        SeparatorFor(line);
      }
    }
  }

  // A line that formatting leaves alone, without a line feed.
  predicate Fixed(f: string -> string, line: string) {
    f(line) == line && '\n' !in line
  }

  predicate AllFixed(f: string -> string, lines: seq<string>) {
    forall i :: 0 <= i < |lines| ==> Fixed(f, lines[i])
  }

  lemma MapFixes(g: Grammar, f: string -> string, lines: seq<string>)
    requires Formats(g, f) && forall i :: 0 <= i < |lines| ==> '\n' !in lines[i]
    ensures AllFixed(f, MapLines(f, lines))
  {
    forall i | 0 <= i < |lines| ensures Fixed(f, MapLines(f, lines)[i]) {
      assert FormatsLine(g, f, lines[i]);
    }
  }

  lemma FixedMap(f: string -> string, lines: seq<string>)
    requires AllFixed(f, lines)
    ensures MapLines(f, lines) == lines
  {
    forall i | 0 <= i < |lines| ensures MapLines(f, lines)[i] == lines[i] {
      assert Fixed(f, lines[i]);
    }
  }

  lemma BlockFixed(g: Grammar, f: string -> string, block: seq<string>)
    requires Formats(g, f) && AllRows(g, block) && AllFixed(f, block)
    ensures AllFixed(f, NormalizeBlock(g, block))
  {
    var left := DropPrefix(g, block);
    forall i | 0 <= i < |left| ensures Fixed(f, left[i]) && g.isRow(left[i]) {
      assert left[i] == block[|block| - |left| + i];
    }
    SeparatorFixed(g, f, left);
  }

  lemma SeparatorFixed(g: Grammar, f: string -> string, left: seq<string>)
    requires Formats(g, f) && AllRows(g, left) && AllFixed(f, left)
    ensures AllFixed(f, AddSeparator(g, left))
  {
    if |left| >= 2 {
      assert Fixed(f, left[0]) && g.isRow(left[0]) && FormatsLine(g, f, left[0]);
      TailFixed(f, left);
      InsertFixed(f, left[0], g.separatorFor(left[0]), left[1..]);
    }
  }

  lemma TailFixed(f: string -> string, lines: seq<string>)
    requires lines != [] && AllFixed(f, lines)
    ensures AllFixed(f, lines[1..])
  {
  }

  lemma InsertFixed(f: string -> string, first: string, second: string, rest: seq<string>)
    requires Fixed(f, first) && Fixed(f, second) && AllFixed(f, rest)
    ensures AllFixed(f, [first, second] + rest)
  {
  }

  lemma {:induction false} NormalizeFixed(g: Grammar, f: string -> string, lines: seq<string>)
    requires Formats(g, f) && AllFixed(f, lines)
    ensures AllFixed(f, Normalize(g, lines))
    decreases |lines|
  {
    if lines != [] {
      if g.isRow(lines[0]) {
        var n := RunLength(g, lines);
        RunIsMaximal(g, lines);
        BlockFixed(g, f, lines[..n]);
        NormalizeFixed(g, f, lines[n..]);
      } else {
        NormalizeFixed(g, f, lines[1..]);
      }
    }
  }

  // ---------- Idempotence ----------

  lemma JoinInjective(a: seq<string>, b: seq<string>)
    requires a != [] && b != []
    requires forall i :: 0 <= i < |a| ==> '\n' !in a[i]
    requires forall i :: 0 <= i < |b| ==> '\n' !in b[i]
    ensures Join("\n", a) == Join("\n", b) <==> a == b
  {
    SplitJoin(a, '\n');
    SplitJoin(b, '\n');
  }

  lemma FixedLines(f: string -> string, lines: seq<string>)
    requires AllFixed(f, lines)
    ensures forall i :: 0 <= i < |lines| ==> '\n' !in lines[i]
  {
    forall i | 0 <= i < |lines| ensures '\n' !in lines[i] {
      assert Fixed(f, lines[i]);
    }
  }

  lemma NormalizeBlankLine(g: Grammar, f: string -> string)
    requires Formats(g, f) && !g.isRow("")
    ensures Normalize(g, [""]) == [""] && MapLines(f, [""]) == [""]
  {
    assert FormatsLine(g, f, "");
    assert [""][1..] == [];
    assert Normalize(g, []) == [];
  }

  // Formatting a document of formatted lines once more only repairs its tables once more.
  lemma FormatAgain(g: Grammar, f: string -> string, out: seq<string>)
    requires Formats(g, f) && !g.isRow("") && AllFixed(f, out)
    ensures FormatWith(g, f, Join("\n", out)) == Join("\n", Normalize(g, out))
    ensures Join("\n", Normalize(g, out)) == Join("\n", out) <==> Normalize(g, out) == out
  {
    NormalizeBlankLine(g, f);
    if out == [] {
      assert Join("\n", out) == "" && Split("", '\n') == [""];
    } else {
      FixedLines(f, out);
      FixedMap(f, out);
      SplitJoin(out, '\n');
      NormalizeFixed(g, f, out);
      var again := Normalize(g, out);
      FixedLines(f, again);
      if again == [] {
        JoinInjective(out, [""]);
      } else {
        JoinInjective(again, out);
      }
    }
  }

  lemma FormatTwiceWith(g: Grammar, f: string -> string, content: string)
    requires Lawful(g) && Formats(g, f) && !g.isRow("")
    ensures FormatWith(g, f, FormatWith(g, f, content)) == FormatWith(g, f, content) <==>
            AllSettled(g, MapLines(f, Split(content, '\n')))
  {
    var lines := MapLines(f, Split(content, '\n'));
    var out := Normalize(g, lines);
    MapFixes(g, f, Split(content, '\n'));
    NormalizeFixed(g, f, lines);
    FormatAgain(g, f, out);
    NormalizeTwice(g, lines);
  }

  lemma NoRowInBlank()
    ensures !IsTableRow("")
  {
    assert Strip("", WHITESPACE) == "";
  }

  // Formatting a document again changes nothing exactly if, in every table of the formatted lines, what is left
  // after the prefix is dropped is settled -- as it is if it begins with a data row.
  lemma FormatTableTwice(content: string)
    ensures FormatTable(FormatTable(content)) == FormatTable(content) <==>
            AllSettled(UTIL, MapLines(Format, Split(content, '\n')))
  {
    UtilLawful();
    UtilFormats();
    NoRowInBlank();
    FormatTwiceWith(UTIL, Format, content);
  }

  // ---------- What formatting keeps ----------

  lemma {:induction false} MapNonTable(g: Grammar, f: string -> string, lines: seq<string>)
    requires Formats(g, f)
    ensures NonTable(g, MapLines(f, lines)) == NonTable(g, lines)
  {
    if lines != [] {
      assert FormatsLine(g, f, lines[0]);
      assert MapLines(f, lines)[1..] == MapLines(f, lines[1..]);
      MapNonTable(g, f, lines[1..]);
    }
  }

  // Lines with the non-table lines of the content and the data rows of the formatted lines, in order, every longer
  // table delimited.
  ghost predicate KeepsDocument(content: string, out: seq<string>) {
    && NonTable(UTIL, out) == NonTable(UTIL, Split(content, '\n'))
    && DataRows(UTIL, out) == DataRows(UTIL, MapLines(Format, Split(content, '\n')))
    && AllDelimited(UTIL, out)
  }

  // The output is such lines: none, or joined by line feeds.
  lemma FormatTableKeeps(content: string) returns (out: seq<string>)
    ensures FormatTable(content) == Join("\n", out) && KeepsDocument(content, out)
    ensures out != [] ==> Split(FormatTable(content), '\n') == out
  {
    var lines := MapLines(Format, Split(content, '\n'));
    out := Normalize(UTIL, lines);
    UtilLawful();
    UtilFormats();
    NormalizeKeeps(UTIL, lines);
    NormalizeDelimits(UTIL, lines);
    MapNonTable(UTIL, Format, Split(content, '\n'));
    MapFixes(UTIL, Format, Split(content, '\n'));
    NormalizeFixed(UTIL, Format, lines);
    FixedLines(Format, out);
    if out != [] {
      SplitJoin(out, '\n');
    }
  }

  // Formats the tables of a document: its text outside tables and its data rows are kept, its tables are delimited,
  // and formatting the result again changes nothing exactly if all formatted tables are settled.
  method FormatTableContent(content: string) returns (r: string)
    ensures r == FormatTable(content)
    ensures exists out :: r == Join("\n", out) && KeepsDocument(content, out)
    ensures FormatTable(r) == r <==> AllSettled(UTIL, MapLines(Format, Split(content, '\n')))
  {
    FormatTableTwice(content);
    ghost var kept := FormatTableKeeps(content);
    var lines := Split(content, '\n');
    var formatted: seq<string> := MapLines(Format, lines);
    var out := NormalizeLines(UTIL, formatted);
    r := Join("\n", out);
  }

  // The separator row inserted below a row has as many cells as that row.
  lemma InsertedCells(block: seq<string>)
    requires AllRows(UTIL, block) && |NormalizeBlock(UTIL, block)| == |DropPrefix(UTIL, block)| + 1
    ensures var r := NormalizeBlock(UTIL, block);
      IsSeparatorRow(r[1]) && |Cells(r[1])| == |Cells(r[0])|
  {
    UtilLawful();
    BlockShape(UTIL, block);
    var left := DropPrefix(UTIL, block);
    assert left[0] == block[|block| - |left|];
    assert UTIL.isRow(left[0]);
    SeparatorFor(left[0]);
  }

  // ---------- A document that is not settled ----------

  lemma OneCell(c: string)
    requires IsCell(c) && '\n' !in c && !IsAlignPart(" " + c + " ")
    ensures var row := PrintRow([c]);
      Cells(row) == [c] && IsTableRow(row) && Fixed(Format, row)
  {
    var row := PrintRow([c]);
    PrintedFixed("", [c]);
    assert "" + row == row;
    PrintedChars("", [c]);
    PrintedParts([c]);
    SpecialChars();
    assert ([""] + Padded([c]) + [""])[1] == " " + c + " ";
    StripNothing(row);
    assert !IsAlignLine(row);
  }

  lemma StripNothing(row: string)
    requires row != "" && row[0] == '|' && row[|row| - 1] == '|'
    ensures Strip(row, SPACE_TAB) == row
  {
    SpecialChars();
    assert "" + row + "" == row;
    StripPadded("", row, "", SPACE_TAB);
  }

  lemma EmptyCell()
    ensures IsCell("") && !IsAlignPart(" " + "" + " ")
  {
    StripRightBlank("  ", SPACE_TAB);
    assert StripLeft("  ", SPACE_TAB) == "" && " " + "" + " " == "  ";
  }

  lemma LetterCell()
    ensures IsCell("x") && !IsAlignPart(" " + "x" + " ") && !IsDelimiter("x")
  {
    SpecialChars();
    assert 'x' !in WHITESPACE && 'x' !in SPACE_TAB;
    StripPadded(" ", "x", " ", SPACE_TAB);
    StripPadded("", "x", "", WHITESPACE);
    assert "" + "x" + "" == "x";
    assert "x"[0] == 'x';
  }

  // A document that is one table of formatted rows: formatting is repairing the table.
  lemma FormatOneTable(g: Grammar, f: string -> string, rows: seq<string>)
    requires rows != [] && AllRows(g, rows) && AllFixed(f, rows)
    ensures FormatWith(g, f, Join("\n", rows)) == Join("\n", NormalizeBlock(g, rows))
  {
    FixedLines(f, rows);
    SplitJoin(rows, '\n');
    FixedMap(f, rows);
    NormalizeRun(g, rows, []);
    assert rows + [] == rows && Normalize(g, []) == [];
    assert NormalizeBlock(g, rows) + [] == NormalizeBlock(g, rows);
  }

  lemma UnsettledRows(g: Grammar, f: string -> string, empty: string, separator: string, data: string)
    requires Lawful(g) && Fixed(f, empty) && Fixed(f, separator) && Fixed(f, data)
    requires g.isRow(empty) && g.isEmpty(empty) && separator == g.separatorFor(empty)
    requires g.isRow(separator) && g.isSeparator(separator) && IsDataRow(g, data)
    ensures FormatWith(g, f, Join("\n", [empty, separator, empty, data])) == Join("\n", [empty, separator, data])
    ensures FormatWith(g, f, Join("\n", [empty, separator, data])) == Join("\n", [data])
  {
    hide Lawful, FormatWith, NormalizeBlock, Join;
    FormatOneTable(g, f, [empty, separator, empty, data]);
    FormatOneTable(g, f, [empty, separator, data]);
    NotIdempotent(g, empty, separator, empty, data);
    NotIdempotentAgain(g, empty, data);
  }

  lemma UnsettledCells(empty: string, separator: string, data: string)
    requires empty == PrintRow([""]) && separator == PrintRow(Dashes(1)) && data == PrintRow(["x"])
    ensures FormatTable(Join("\n", [empty, separator, empty, data])) == Join("\n", [empty, separator, data])
    ensures FormatTable(Join("\n", [empty, separator, data])) == Join("\n", [data])
  {
    hide FormatWith, Join, Format, Cells, PrintRow, IsAlignPart, Lawful;
    EmptyCell();
    LetterCell();
    OneCell("");
    OneCell("x");
    SeparatorFor(empty);
    UtilLawful();
    UnsettledRows(UTIL, Format, empty, separator, data);
  }

  // Two empty rows, the first of them with an alignment row, over one row of data: formatting leaves the second empty
  // row, formatting again takes it away.
  lemma FormatNotIdempotent()
    ensures FormatTable("|  |" + "\n" + "| --- |" + "\n" + "|  |" + "\n" + "| x |") ==
            "|  |" + "\n" + "| --- |" + "\n" + "| x |"
    ensures FormatTable("|  |" + "\n" + "| --- |" + "\n" + "| x |") == "| x |"
  {
    hide FormatTable, Join, PrintRow;
    var empty, separator, data := "|  |", "| --- |", "| x |";
    RowTexts();
    UnsettledCells(empty, separator, data);
    JoinFour(empty, separator, empty, data);
    JoinFour(empty, empty, separator, data);
  }

  lemma RowTexts()
    ensures PrintRow([""]) == "|  |" && PrintRow(["x"]) == "| x |" && PrintRow(Dashes(1)) == "| --- |"
  {
    assert Dashes(1) == ["---"];
  }

  lemma JoinFour(a: string, b: string, c: string, d: string)
    ensures Join("\n", [a, b, c, d]) == a + "\n" + b + "\n" + c + "\n" + d
    ensures Join("\n", [b, c, d]) == b + "\n" + c + "\n" + d
    ensures Join("\n", [d]) == d
  {
    var two, three := c + "\n" + d, b + "\n" + (c + "\n" + d);
    JoinCons("\n", c, [d]);
    JoinCons("\n", b, [c, d]);
    JoinCons("\n", a, [b, c, d]);
    assert [c] + [d] == [c, d] && [b] + [c, d] == [b, c, d] && [a] + [b, c, d] == [a, b, c, d];
    Assoc(b + "\n", c + "\n", d);
    assert a + "\n" + b + "\n" + c + "\n" + d == a + "\n" + three;
  }
}
