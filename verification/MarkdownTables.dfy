// Repair of whole Markdown tables (docreader/parser/markdown_parser.py, normalize_spurious_table_prefixes and
// format_table).
module MarkdownTables {
  import opened Text

  // The row tests of the table utility, and the separator row it inserts below a row.
  datatype Grammar = Grammar(
    isRow: string -> bool,
    isSeparator: string -> bool,
    isEmpty: string -> bool,
    separatorFor: string -> string)

  // What is inserted below a row is a separator row, the same for a row and for the inserted row itself.
  ghost predicate Inserts(g: Grammar, line: string) {
    var s := g.separatorFor(line);
    g.isRow(s) && g.isSeparator(s) && g.separatorFor(s) == s
  }

  ghost predicate Lawful(g: Grammar) {
    && (forall line :: g.isSeparator(line) ==> !g.isEmpty(line))
    && (forall line {:trigger Inserts(g, line)} :: g.isRow(line) ==> Inserts(g, line))
  }

  predicate IsDataRow(g: Grammar, line: string) {
    g.isRow(line) && !g.isSeparator(line) && !g.isEmpty(line)
  }

  // ---------- One table ----------

  function DropEmpty(g: Grammar, block: seq<string>): (r: seq<string>)
    ensures |r| <= |block| && r == block[|block| - |r|..]
  {
    if block != [] && g.isEmpty(block[0]) then DropEmpty(g, block[1..]) else block
  }

  // What is left of a table after its bogus prefix is dropped: empty rows, then at most one separator row.
  function DropPrefix(g: Grammar, block: seq<string>): (r: seq<string>)
    ensures |r| <= |block| && r == block[|block| - |r|..]
  {
    var b := DropEmpty(g, block);
    if b != [] && g.isSeparator(b[0]) then b[1..] else b
  }

  function AddSeparator(g: Grammar, block: seq<string>): seq<string> {
    if |block| >= 2 && !g.isSeparator(block[1]) then [block[0], g.separatorFor(block[0])] + block[1..] else block
  }

  function NormalizeBlock(g: Grammar, block: seq<string>): seq<string> {
    AddSeparator(g, DropPrefix(g, block))
  }

  method NormalizeTableBlock(g: Grammar, rows: seq<string>) returns (block: seq<string>)
    ensures block == NormalizeBlock(g, rows)
  {
    block := rows;
    while block != [] && g.isEmpty(block[0])
      invariant DropEmpty(g, block) == DropEmpty(g, rows)
    {
      block := block[1..];
    }
    if block != [] && g.isSeparator(block[0]) {
      block := block[1..];
    }
    if |block| >= 2 && !g.isSeparator(block[1]) {
      var sep := g.separatorFor(block[0]);
      block := [block[0], sep] + block[1..];
    }
  }

  // ---------- All tables ----------

  predicate AllRows(g: Grammar, lines: seq<string>) {
    forall i :: 0 <= i < |lines| ==> g.isRow(lines[i])
  }

  predicate NoRowFirst(g: Grammar, lines: seq<string>) {
    lines != [] ==> !g.isRow(lines[0])
  }

  // The number of table rows the lines begin with.
  function RunLength(g: Grammar, lines: seq<string>): (n: nat)
    ensures n <= |lines|
  {
    if lines == [] || !g.isRow(lines[0]) then 0 else 1 + RunLength(g, lines[1..])
  }

  lemma {:induction false} RunIsMaximal(g: Grammar, lines: seq<string>)
    ensures var n := RunLength(g, lines); AllRows(g, lines[..n]) && NoRowFirst(g, lines[n..])
  {
    if lines != [] && g.isRow(lines[0]) {
      RunIsMaximal(g, lines[1..]);
      var m := RunLength(g, lines[1..]);
      assert lines[..m + 1] == [lines[0]] + lines[1..][..m] && lines[m + 1..] == lines[1..][m..];
    }
  }

  lemma {:induction false} RunOf(g: Grammar, block: seq<string>, rest: seq<string>)
    requires AllRows(g, block) && NoRowFirst(g, rest)
    ensures RunLength(g, block + rest) == |block|
  {
    if block == [] {
      assert block + rest == rest;
    } else {
      assert (block + rest)[1..] == block[1..] + rest;
      RunOf(g, block[1..], rest);
    }
  }

  function Normalize(g: Grammar, lines: seq<string>): seq<string>
    decreases |lines|
  {
    if lines == [] then []
    else if !g.isRow(lines[0]) then [lines[0]] + Normalize(g, lines[1..])
    else
      var n := RunLength(g, lines);
      NormalizeBlock(g, lines[..n]) + Normalize(g, lines[n..])
  }

  lemma NormalizeRun(g: Grammar, block: seq<string>, rest: seq<string>)
    requires AllRows(g, block) && NoRowFirst(g, rest)
    ensures Normalize(g, block + rest) == NormalizeBlock(g, block) + Normalize(g, rest)
  {
    if block == [] {
      assert block + rest == rest && [] + Normalize(g, rest) == Normalize(g, rest);
    } else {
      RunOf(g, block, rest);
      assert (block + rest)[..|block|] == block && (block + rest)[|block|..] == rest;
    }
  }

  // The inner loop: the table that begins at a row.
  method CollectTable(g: Grammar, lines: seq<string>, start: nat) returns (block: seq<string>, i: nat)
    requires start <= |lines|
    ensures start <= i <= |lines| && block == lines[start..i] && AllRows(g, block) && NoRowFirst(g, lines[i..])
    ensures start < |lines| && g.isRow(lines[start]) ==> start < i
  {
    i := start;
    block := [];
    while i < |lines| && g.isRow(lines[i])
      invariant start <= i <= |lines| && block == lines[start..i] && AllRows(g, block)
    {
      block := block + [lines[i]];
      i := i + 1;
    }
  }

  lemma NormalizeLineAt(g: Grammar, out: seq<string>, lines: seq<string>, i: nat)
    requires i < |lines| && !g.isRow(lines[i])
    ensures out + Normalize(g, lines[i..]) == out + [lines[i]] + Normalize(g, lines[i + 1..])
  {
    assert lines[i..][1..] == lines[i + 1..];
  }

  lemma NormalizeTableAt(g: Grammar, out: seq<string>, lines: seq<string>, i: nat, next: nat)
    requires i <= next <= |lines| && AllRows(g, lines[i..next]) && NoRowFirst(g, lines[next..])
    ensures out + Normalize(g, lines[i..]) ==
      out + NormalizeBlock(g, lines[i..next]) + Normalize(g, lines[next..])
  {
    var block, rest := lines[i..next], lines[next..];
    assert lines[i..] == block + rest;
    NormalizeRun(g, block, rest);
    Assoc(out, NormalizeBlock(g, block), Normalize(g, rest));
  }

  method NormalizeLines(g: Grammar, lines: seq<string>) returns (out: seq<string>)
    ensures out == Normalize(g, lines)
  {
    out := [];
    var i := 0;
    assert lines[0..] == lines;
    while i < |lines|
      invariant 0 <= i <= |lines|
      invariant out + Normalize(g, lines[i..]) == Normalize(g, lines)
      decreases |lines| - i
    {
      if g.isRow(lines[i]) {
        var block, next := CollectTable(g, lines, i);
        NormalizeTableAt(g, out, lines, i, next);
        var normalized := NormalizeTableBlock(g, block);
        out := out + normalized;
        i := next;
      } else {
        NormalizeLineAt(g, out, lines, i);
        out := out + [lines[i]];
        i := i + 1;
      }
    }
    NoneLeft(g, out, lines[i..]);
  }

  lemma NoneLeft(g: Grammar, out: seq<string>, rest: seq<string>)
    requires rest == []
    ensures out + Normalize(g, rest) == out
  {
  }

  method NormalizeSpuriousTablePrefixes(g: Grammar, content: string) returns (r: string)
    ensures r == Join("\n", Normalize(g, Split(content, '\n')))
  {
    var lines := Split(content, '\n');
    var out := NormalizeLines(g, lines);
    r := Join("\n", out);
  }

  // ---------- What table repair keeps ----------

  function NonTable(g: Grammar, lines: seq<string>): seq<string> {
    if lines == [] then [] else (if g.isRow(lines[0]) then [] else [lines[0]]) + NonTable(g, lines[1..])
  }

  function DataRows(g: Grammar, lines: seq<string>): seq<string> {
    if lines == [] then [] else (if IsDataRow(g, lines[0]) then [lines[0]] else []) + DataRows(g, lines[1..])
  }

  lemma {:induction false} KeptAppend(g: Grammar, a: seq<string>, b: seq<string>)
    ensures NonTable(g, a + b) == NonTable(g, a) + NonTable(g, b)
    ensures DataRows(g, a + b) == DataRows(g, a) + DataRows(g, b)
  {
    if a == [] {
      assert a + b == b;
    } else {
      assert (a + b)[1..] == a[1..] + b;
      KeptAppend(g, a[1..], b);
    }
  }

  lemma {:induction false} RowsNonTable(g: Grammar, rows: seq<string>)
    requires AllRows(g, rows)
    ensures NonTable(g, rows) == []
  {
    if rows != [] {
      RowsNonTable(g, rows[1..]);
    }
  }

  lemma {:induction false} DropEmptyKeeps(g: Grammar, block: seq<string>)
    ensures DataRows(g, DropEmpty(g, block)) == DataRows(g, block)
    ensures DropEmpty(g, block) != [] ==> !g.isEmpty(DropEmpty(g, block)[0])
  {
    if block != [] && g.isEmpty(block[0]) {
      DropEmptyKeeps(g, block[1..]);
      assert [] + DataRows(g, block[1..]) == DataRows(g, block[1..]);
    }
  }

  lemma DropPrefixKeeps(g: Grammar, block: seq<string>)
    ensures DataRows(g, DropPrefix(g, block)) == DataRows(g, block)
  {
    DropEmptyKeeps(g, block);
    var b := DropEmpty(g, block);
    if b != [] && g.isSeparator(b[0]) {
      assert [] + DataRows(g, b[1..]) == DataRows(g, b[1..]);
    }
  }

  lemma InsertKeeps(g: Grammar, first: string, s: string, rest: seq<string>)
    requires AllRows(g, [first] + rest) && g.isRow(s) && g.isSeparator(s)
    ensures AllRows(g, [first, s] + rest) && DataRows(g, [first, s] + rest) == DataRows(g, [first] + rest)
  {
    var inserted := [s] + rest;
    assert [first, s] + rest == [first] + inserted;
    assert ([first] + rest)[0] == first && ([first] + rest)[1..] == rest;
    assert inserted[1..] == rest && ([first] + inserted)[1..] == inserted;
    InsertedData(g, s, rest);
    InsertedRows(g, first, s, rest);
  }

  lemma InsertedData(g: Grammar, s: string, rest: seq<string>)
    requires g.isSeparator(s)
    ensures DataRows(g, [s] + rest) == DataRows(g, rest)
  {
    assert ([s] + rest)[1..] == rest && [] + DataRows(g, rest) == DataRows(g, rest);
  }

  lemma InsertedRows(g: Grammar, first: string, s: string, rest: seq<string>)
    requires AllRows(g, [first] + rest) && g.isRow(s)
    ensures AllRows(g, [first, s] + rest)
  {
    var whole, grown := [first] + rest, [first, s] + rest;
    forall i | 0 <= i < |grown| ensures g.isRow(grown[i]) {
      assert i != 1 ==> grown[i] == whole[if i == 0 then 0 else i - 1];
    }
  }

  lemma AddSeparatorKeeps(g: Grammar, b: seq<string>)
    requires Lawful(g)
    requires AllRows(g, b)
    ensures AllRows(g, AddSeparator(g, b)) && DataRows(g, AddSeparator(g, b)) == DataRows(g, b)
    ensures |AddSeparator(g, b)| >= 2 ==> g.isSeparator(AddSeparator(g, b)[1])
  {
    if |b| >= 2 && !g.isSeparator(b[1]) {
      assert Inserts(g, b[0]);
      assert b == [b[0]] + b[1..];
      InsertKeeps(g, b[0], g.separatorFor(b[0]), b[1..]);
    }
  }

  lemma BlockKeeps(g: Grammar, block: seq<string>)
    requires Lawful(g)
    requires AllRows(g, block)
    ensures var r := NormalizeBlock(g, block);
      AllRows(g, r) && DataRows(g, r) == DataRows(g, block) && (|r| >= 2 ==> g.isSeparator(r[1]))
  {
    DropPrefixKeeps(g, block);
    AddSeparatorKeeps(g, DropPrefix(g, block));
  }

  lemma NormalizeStart(g: Grammar, lines: seq<string>)
    requires Lawful(g)
    requires NoRowFirst(g, lines)
    ensures NoRowFirst(g, Normalize(g, lines))
  {
  }

  // The lines outside tables and the data rows are kept, in order.
  lemma {:induction false} NormalizeKeeps(g: Grammar, lines: seq<string>)
    requires Lawful(g)
    ensures NonTable(g, Normalize(g, lines)) == NonTable(g, lines)
    ensures DataRows(g, Normalize(g, lines)) == DataRows(g, lines)
    decreases |lines|
  {
    if lines != [] {
      if g.isRow(lines[0]) {
        var n := RunLength(g, lines);
        var block, rest := lines[..n], lines[n..];
        RunIsMaximal(g, lines);
        assert lines == block + rest;
        BlockKeeps(g, block);
        RowsNonTable(g, block);
        RowsNonTable(g, NormalizeBlock(g, block));
        KeptAppend(g, block, rest);
        KeptAppend(g, NormalizeBlock(g, block), Normalize(g, rest));
        NormalizeKeeps(g, rest);
      } else {
        assert lines == [lines[0]] + lines[1..];
        KeptAppend(g, [lines[0]], Normalize(g, lines[1..]));
        NormalizeKeeps(g, lines[1..]);
      }
    }
  }

  predicate StartsTable(g: Grammar, lines: seq<string>, i: nat)
    requires i < |lines|
  {
    g.isRow(lines[i]) && (i == 0 || !g.isRow(lines[i - 1]))
  }

  // Below the first row of a table comes a separator row, if the table goes on.
  predicate Delimited(g: Grammar, lines: seq<string>, i: nat)
    requires i < |lines|
  {
    StartsTable(g, lines, i) && i + 1 < |lines| && g.isRow(lines[i + 1]) ==> g.isSeparator(lines[i + 1])
  }

  predicate AllDelimited(g: Grammar, lines: seq<string>) {
    forall i :: 0 <= i < |lines| ==> Delimited(g, lines, i)
  }

  lemma DelimitedAppend(g: Grammar, a: seq<string>, b: seq<string>)
    requires AllRows(g, a) && (|a| >= 2 ==> g.isSeparator(a[1])) && NoRowFirst(g, b) && AllDelimited(g, b)
    ensures AllDelimited(g, a + b)
  {
    var all := a + b;
    forall i | 0 <= i < |all| ensures Delimited(g, all, i) {
      if i > |a| {
        assert Delimited(g, b, i - |a|);
      } else if i == |a| < |all| {
        assert all[i] == b[0];
      } else if i > 0 {
        assert all[i - 1] == a[i - 1];
      }
    }
  }

  lemma DelimitedCons(g: Grammar, line: string, b: seq<string>)
    requires !g.isRow(line) && AllDelimited(g, b)
    ensures AllDelimited(g, [line] + b)
  {
    var all := [line] + b;
    forall i | 0 <= i < |all| ensures Delimited(g, all, i) {
      if i > 0 {
        assert Delimited(g, b, i - 1);
        assert i > 1 ==> all[i - 1] == b[i - 2];
      }
    }
  }

  // Every table of two rows or more ends up with a separator as its second row.
  lemma {:induction false} NormalizeDelimits(g: Grammar, lines: seq<string>)
    requires Lawful(g)
    ensures AllDelimited(g, Normalize(g, lines))
    decreases |lines|
  {
    if lines != [] {
      if g.isRow(lines[0]) {
        var n := RunLength(g, lines);
        RunIsMaximal(g, lines);
        BlockKeeps(g, lines[..n]);
        NormalizeStart(g, lines[n..]);
        NormalizeDelimits(g, lines[n..]);
        DelimitedAppend(g, NormalizeBlock(g, lines[..n]), Normalize(g, lines[n..]));
      } else {
        NormalizeDelimits(g, lines[1..]);
        DelimitedCons(g, lines[0], Normalize(g, lines[1..]));
      }
    }
  }

  // A normalised table is the end of the original one, with at most the separator row for its first row put in.
  lemma BlockShape(g: Grammar, block: seq<string>)
    requires Lawful(g)
    requires AllRows(g, block)
    ensures var r, left := NormalizeBlock(g, block), DropPrefix(g, block);
      && left == block[|block| - |left|..]
      && (r == left ||
          (|left| >= 2 && |r| == |left| + 1 && r[0] == left[0] && r[2..] == left[1..] &&
           r[1] == g.separatorFor(r[0]) && g.isSeparator(r[1])))
  {
    var left := DropPrefix(g, block);
    if |left| >= 2 {
      assert Inserts(g, left[0]);
    }
  }

  // ---------- When table repair is idempotent ----------

  // What is left after the prefix begins with a data row, or with delimiter rows that dropping one and putting one
  // in reproduces.
  predicate Settled(g: Grammar, left: seq<string>) {
    || left == []
    || IsDataRow(g, left[0])
    || (g.isSeparator(left[0]) && |left| >= 2 && left[0] == g.separatorFor(left[0]) &&
        (!g.isSeparator(left[1]) || (left[1] == left[0] && |left| >= 3 && !g.isSeparator(left[2]))))
  }

  lemma EmptyLeft(g: Grammar, r: seq<string>)
    requires Lawful(g)
    requires AllRows(g, r) && r != [] && g.isEmpty(r[0]) && (|r| >= 2 ==> g.isSeparator(r[1]))
    ensures |NormalizeBlock(g, r)| < |r|
  {
    if |r| >= 2 {
      var tail := r[1..];
      assert tail[0] == r[1] && !g.isEmpty(tail[0]);
      EmptyThenSeparator(g, r[0], tail);
      assert [r[0]] + tail == r;
    } else {
      assert r[1..] == [] && DropEmpty(g, r[1..]) == [];
    }
    AddSeparatorLength(g, DropPrefix(g, r));
  }

  lemma EmptyThenSeparator(g: Grammar, empty: string, tail: seq<string>)
    requires g.isEmpty(empty) && tail != [] && g.isSeparator(tail[0]) && !g.isEmpty(tail[0])
    ensures DropPrefix(g, [empty] + tail) == tail[1..]
  {
    assert ([empty] + tail)[1..] == tail && DropEmpty(g, tail) == tail;
  }

  lemma AddSeparatorLength(g: Grammar, block: seq<string>)
    ensures |AddSeparator(g, block)| <= |block| + 1
    ensures block == [] ==> AddSeparator(g, block) == []
  {
  }

  lemma DropsSeparator(g: Grammar, r: seq<string>)
    requires Lawful(g)
    requires r != [] && g.isSeparator(r[0])
    ensures DropPrefix(g, r) == r[1..]
  {
  }

  lemma SameStart(a: string, b: string, s: string, t: string, rest: seq<string>)
    ensures [a, b] + rest == [s, t] + rest <==> a == s && b == t
  {
    if [a, b] + rest == [s, t] + rest {
      assert ([a, b] + rest)[0] == a && ([a, b] + rest)[1] == b;
    }
  }

  lemma SeparatorThenRow(g: Grammar, left: seq<string>, s: string)
    requires Lawful(g)
    requires |left| >= 2 && g.isSeparator(left[0]) && !g.isSeparator(left[1])
    requires s == g.separatorFor(left[0]) == g.separatorFor(s)
    ensures NormalizeBlock(g, AddSeparator(g, left)) == AddSeparator(g, left) <==> left[0] == s
  {
    var r := [left[0], s] + left[1..];
    assert AddSeparator(g, left) == r;
    DropsSeparator(g, r);
    assert r[1..] == [s] + left[1..] && r[1..][1..] == left[1..];
    assert AddSeparator(g, r[1..]) == [s, s] + left[1..];
    SameStart(s, s, left[0], s, left[1..]);
  }

  lemma TwoSeparators(g: Grammar, left: seq<string>)
    requires Lawful(g)
    requires |left| >= 2 && g.isSeparator(left[0]) && g.isSeparator(left[1])
    ensures NormalizeBlock(g, AddSeparator(g, left)) == AddSeparator(g, left) <==>
            left[0] == left[1] == g.separatorFor(left[1]) && |left| >= 3 && !g.isSeparator(left[2])
  {
    DropsSeparator(g, left);
    var again := AddSeparator(g, left[1..]);
    if |left| >= 3 && !g.isSeparator(left[2]) {
      assert left[1..][1..] == left[2..];
      assert again == [left[1], g.separatorFor(left[1])] + left[2..];
      assert left == [left[0], left[1]] + left[2..];
      SameStart(left[1], g.separatorFor(left[1]), left[0], left[1], left[2..]);
    } else {
      assert |again| < |left|;
    }
  }

  lemma SeparatorLeft(g: Grammar, left: seq<string>)
    requires Lawful(g)
    requires AllRows(g, left) && left != [] && g.isSeparator(left[0])
    ensures NormalizeBlock(g, AddSeparator(g, left)) == AddSeparator(g, left) <==> Settled(g, left)
  {
    if |left| == 1 {
      DropsSeparator(g, left);
    } else if g.isSeparator(left[1]) {
      TwoSeparators(g, left);
    } else {
      var s := g.separatorFor(left[0]);
      assert Inserts(g, left[0]);
      SeparatorThenRow(g, left, s);
    }
  }

  // Normalising a table again changes nothing exactly if what is left of it after its prefix is settled.
  lemma BlockTwice(g: Grammar, block: seq<string>)
    requires Lawful(g)
    requires AllRows(g, block)
    ensures NormalizeBlock(g, NormalizeBlock(g, block)) == NormalizeBlock(g, block) <==>
            Settled(g, DropPrefix(g, block))
  {
    var left := DropPrefix(g, block);
    BlockKeeps(g, block);
    AddSeparatorKeeps(g, left);
    if left != [] {
      var r := AddSeparator(g, left);
      if g.isSeparator(left[0]) {
        SeparatorLeft(g, left);
      } else if g.isEmpty(left[0]) {
        EmptyLeft(g, r);
      } else {
        assert DropPrefix(g, r) == r;
      }
    }
  }

  predicate AllSettled(g: Grammar, lines: seq<string>)
    decreases |lines|
  {
    if lines == [] then true
    else if !g.isRow(lines[0]) then AllSettled(g, lines[1..])
    else
      var n := RunLength(g, lines);
      Settled(g, DropPrefix(g, lines[..n])) && AllSettled(g, lines[n..])
  }

  lemma SplitsEqual(g: Grammar, a: seq<string>, b: seq<string>, c: seq<string>, d: seq<string>)
    requires AllRows(g, a) && AllRows(g, b) && NoRowFirst(g, c) && NoRowFirst(g, d)
    ensures a + c == b + d <==> a == b && c == d
  {
    if a + c == b + d {
      RunOf(g, a, c);
      RunOf(g, b, d);
      assert a == (a + c)[..|a|] && c == (a + c)[|a|..];
      assert b == (b + d)[..|b|] && d == (b + d)[|b|..];
    }
  }

  // Normalising a document again changes nothing exactly if every table is settled.
  lemma {:induction false} NormalizeTwice(g: Grammar, lines: seq<string>)
    requires Lawful(g)
    ensures Normalize(g, Normalize(g, lines)) == Normalize(g, lines) <==> AllSettled(g, lines)
    decreases |lines|
  {
    if lines != [] {
      if g.isRow(lines[0]) {
        var n := RunLength(g, lines);
        var block, rest := lines[..n], lines[n..];
        RunIsMaximal(g, lines);
        NormalizeTwice(g, rest);
        NormalizeStart(g, rest);
        NormalizeStart(g, Normalize(g, rest));
        BlockKeeps(g, block);
        var once := NormalizeBlock(g, block);
        BlockKeeps(g, once);
        BlockTwice(g, block);
        NormalizeRun(g, once, Normalize(g, rest));
        SplitsEqual(g, NormalizeBlock(g, once), once, Normalize(g, Normalize(g, rest)), Normalize(g, rest));
      } else {
        var rest := Normalize(g, lines[1..]);
        NormalizeTwice(g, lines[1..]);
        assert ([lines[0]] + rest)[1..] == rest;
        assert ([lines[0]] + Normalize(g, rest))[1..] == Normalize(g, rest);
      }
    }
  }

  lemma DropsTwo(g: Grammar, empty: string, separator: string, rest: seq<string>)
    requires Lawful(g)
    requires g.isEmpty(empty) && g.isSeparator(separator)
    ensures DropPrefix(g, [empty, separator] + rest) == rest
  {
    var block := [empty, separator] + rest;
    assert block[1..] == [separator] + rest && ([separator] + rest)[1..] == rest;
    assert DropEmpty(g, block[1..]) == block[1..];
  }

  lemma AddsOne(g: Grammar, first: string, second: string, s: string)
    requires !g.isSeparator(second) && s == g.separatorFor(first)
    ensures AddSeparator(g, [first, second]) == [first, s, second]
  {
    assert [first, second][1..] == [second];
  }

  // An empty row, a separator row and another empty row before the data: normalising leaves the second empty row
  // above the data, normalising again takes it away.
  lemma NotIdempotent(g: Grammar, empty: string, separator: string, another: string, data: string)
    requires Lawful(g)
    requires g.isEmpty(empty) && g.isSeparator(separator) && g.isEmpty(another) && IsDataRow(g, data)
    ensures NormalizeBlock(g, [empty, separator, another, data]) == [another, g.separatorFor(another), data]
  {
    DropsTwo(g, empty, separator, [another, data]);
    assert [empty, separator] + [another, data] == [empty, separator, another, data];
    AddsOne(g, another, data, g.separatorFor(another));
  }

  lemma NotIdempotentAgain(g: Grammar, another: string, data: string)
    requires Lawful(g) && g.isRow(another) && g.isEmpty(another) && IsDataRow(g, data)
    ensures NormalizeBlock(g, [another, g.separatorFor(another), data]) == [data]
  {
    assert Inserts(g, another);
    DropsTwo(g, another, g.separatorFor(another), [data]);
    assert [another, g.separatorFor(another)] + [data] == [another, g.separatorFor(another), data];
  }
}
