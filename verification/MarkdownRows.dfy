// Rows of Markdown tables: splitting into cells and uniform printing (docreader/parser/markdown_parser.py).
module MarkdownRows {
  import opened Text

  function StripAll(parts: seq<string>): (r: seq<string>)
    ensures |r| == |parts|
  {
    seq(|parts|, i requires 0 <= i < |parts| => Strip(parts[i], WHITESPACE))
  }

  // Without the blank pieces at either end.
  function Inner(parts: seq<string>): seq<string>
    requires parts != []
  {
    var tail := if Strip(parts[0], WHITESPACE) == "" then parts[1..] else parts;
    if tail != [] && Strip(tail[|tail| - 1], WHITESPACE) == "" then tail[..|tail| - 1] else tail
  }

  // The cells of a row: what is between its pipes, without the blank pieces outside the outer ones.
  function Cells(row: string): seq<string> {
    var inner := Strip(row, WHITESPACE);
    if inner == "" || inner[0] != '|' then [] else StripAll(Inner(Split(inner, '|')))
  }

  // A row as both formatters print it.
  function PrintRow(cells: seq<string>): string {
    "| " + Join(" | ", cells) + " |"
  }

  // A cell as splitting yields it.
  predicate IsCell(c: string) {
    '|' !in c && Strip(c, WHITESPACE) == c
  }

  predicate AreCells(cells: seq<string>) {
    forall i :: 0 <= i < |cells| ==> IsCell(cells[i])
  }

  lemma SpecialChars()
    ensures '|' !in WHITESPACE && ' ' in WHITESPACE && '\t' in WHITESPACE && '-' !in WHITESPACE && ':' !in WHITESPACE
    ensures '|' !in SPACE_TAB
  {
  }

  // ---------- Print and split back ----------

  function Padded(cells: seq<string>): (r: seq<string>)
    ensures |r| == |cells|
  {
    seq(|cells|, i requires 0 <= i < |cells| => " " + cells[i] + " ")
  }

  lemma JoinCons(sep: string, first: string, rest: seq<string>)
    requires rest != []
    ensures Join(sep, [first] + rest) == first + sep + Join(sep, rest)
  {
    assert ([first] + rest)[1..] == rest;
  }

  lemma {:induction false} PrintAsJoin(cells: seq<string>)
    requires cells != []
    ensures " " + Join(" | ", cells) + " |" == Join("|", Padded(cells) + [""])
  {
    var rest := cells[1..];
    var first := " " + cells[0] + " ";
    if rest == [] {
      assert Padded(cells) + [""] == [first] + [""];
      JoinCons("|", first, [""]);
    } else {
      PrintAsJoin(rest);
      assert Padded(cells) + [""] == [first] + (Padded(rest) + [""]);
      JoinCons("|", first, Padded(rest) + [""]);
      PrintStep(cells[0], Join(" | ", rest));
    }
  }

  lemma PrintStep(cell: string, joined: string)
    ensures " " + (cell + " | " + joined) + " |" == " " + cell + " " + "|" + (" " + joined + " |")
  {
  }

  lemma PrintedParts(cells: seq<string>)
    requires cells != [] && AreCells(cells)
    ensures Split(PrintRow(cells), '|') == [""] + Padded(cells) + [""]
  {
    var parts := [""] + Padded(cells) + [""];
    PrintAsJoin(cells);
    assert parts == [""] + (Padded(cells) + [""]);
    JoinCons("|", "", Padded(cells) + [""]);
    var body := " " + Join(" | ", cells) + " |";
    assert PrintRow(cells) == "" + "|" + body;
    forall i | 0 <= i < |parts| ensures '|' !in parts[i] {
      if 0 < i < |parts| - 1 {
        assert IsCell(cells[i - 1]);
      }
    }
    SplitJoin(parts, '|');
  }

  lemma PaddedStripped(cells: seq<string>)
    requires AreCells(cells)
    ensures StripAll(Padded(cells)) == cells
  {
    SpecialChars();
    forall i | 0 <= i < |cells| ensures StripAll(Padded(cells))[i] == cells[i] {
      assert IsCell(cells[i]);
      StripCell(cells[i], " ", " ", WHITESPACE);
    }
  }

  lemma InnerOf(core: seq<string>)
    ensures Inner([""] + core + [""]) == core
  {
    var parts := [""] + core + [""];
    assert Strip("", WHITESPACE) == "";
    assert parts[1..] == core + [""];
  }

  lemma CellsFromParts(line: string, inner: string, core: seq<string>)
    requires inner != "" && inner[0] == '|' && Strip(line, WHITESPACE) == inner
    requires Split(inner, '|') == [""] + core + [""]
    ensures Cells(line) == StripAll(core)
  {
    InnerOf(core);
  }

  // Splitting a printed row, indented or not, gives back the cells it was printed from.
  lemma SplitPrinted(indent: string, cells: seq<string>)
    requires AllIn(indent, WHITESPACE) && cells != [] && AreCells(cells)
    ensures Cells(indent + PrintRow(cells)) == cells
  {
    SpecialChars();
    var row := PrintRow(cells);
    assert indent + row + "" == indent + row;
    StripPadded(indent, row, "", WHITESPACE);
    PrintedParts(cells);
    PaddedStripped(cells);
    CellsFromParts(indent + row, row, Padded(cells));
  }

  lemma {:induction false} SplitChars(s: string, c: char, i: nat, x: char)
    requires i < |Split(s, c)| && x in Split(s, c)[i]
    ensures x in s
  {
    if s != "" {
      var rest := Split(s[1..], c);
      if s[0] == c {
        if i > 0 {
          SplitChars(s[1..], c, i - 1, x);
        }
      } else if x != s[0] || i > 0 {
        SplitChars(s[1..], c, i, x);
      }
    }
  }

  // The cells of any row can be printed and split back, and hold only characters of the row.
  lemma CellsOfRow(row: string)
    ensures AreCells(Cells(row))
    ensures forall i, x :: 0 <= i < |Cells(row)| && x in Cells(row)[i] ==> x in row
  {
    var inner := Strip(row, WHITESPACE);
    StripTwice(row, WHITESPACE);
    if inner != "" && inner[0] == '|' {
      var parts := Split(inner, '|');
      var cells := Cells(row);
      var offset := if Strip(parts[0], WHITESPACE) == "" then 1 else 0;
      forall i | 0 <= i < |cells| ensures IsCell(cells[i]) && forall x :: x in cells[i] ==> x in row {
        CellOfPart(parts[i + offset], cells[i]);
        forall x | x in cells[i] ensures x in row {
          SplitChars(inner, '|', i + offset, x);
        }
      }
    }
  }

  lemma CellOfPart(part: string, cell: string)
    requires cell == Strip(part, WHITESPACE) && '|' !in part
    ensures IsCell(cell) && forall x :: x in cell ==> x in part
  {
    StripTwice(part, WHITESPACE);
  }
}
