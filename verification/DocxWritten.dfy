// Vertical merges in tables as Word writes them: spans and positions from the numbers in the document
// (docx_merge.py).
module DocxWritten {
  import opened Wrappers
  import opened Text
  import opened DocxTables

  // ---------- Integers as int() reads them ----------

  predicate AllDigits(s: string) {
    forall i :: 0 <= i < |s| ==> IsDigit(s[i])
  }

  // Digits with single underscores between them.
  predicate IsDigitText(t: string) {
    && t != "" && IsDigit(t[0]) && IsDigit(t[|t| - 1])
    && (forall i :: 0 <= i < |t| ==> IsDigit(t[i]) || t[i] == '_')
    && (forall i :: 0 <= i < |t| - 1 ==> DigitNear(t, i))
  }

  predicate DigitNear(t: string, i: nat)
    requires i + 1 < |t|
  {
    IsDigit(t[i]) || IsDigit(t[i + 1])
  }

  // The digits of a text, in order.
  function Digits(t: string): (r: string)
    ensures AllDigits(r)
  {
    if t == "" then ""
    else if IsDigit(t[|t| - 1]) then Digits(t[..|t| - 1]) + [t[|t| - 1]]
    else Digits(t[..|t| - 1])
  }

  lemma DigitsLast(front: string, c: char)
    ensures Digits(front + [c]) == if IsDigit(c) then Digits(front) + [c] else Digits(front)
  {
    assert (front + [c])[..|front|] == front;
  }

  lemma ValueLast(front: string, c: char)
    requires AllDigits(front) && IsDigit(c)
    ensures AllDigits(front + [c]) && DigitsValue(front + [c]) == 10 * DigitsValue(front) + DigitValue(c)
  {
    assert (front + [c])[..|front|] == front;
  }

  // Taking the last digit off leaves a digit text, after the underscore before it, if any, is taken off as well.
  lemma DigitTextFront(front: string, c: char)
    requires front != "" && IsDigit(front[|front| - 1]) && IsDigit(c)
    ensures IsDigitText(front + [c]) <==> IsDigitText(front)
  {
    var t := front + [c];
    assert forall i :: 0 <= i < |front| ==> t[i] == front[i];
    if IsDigitText(t) {
      forall i | 0 <= i < |front| - 1 ensures DigitNear(front, i) {
        assert DigitNear(t, i);
      }
    }
    if IsDigitText(front) {
      forall i | 0 <= i < |t| - 1 ensures DigitNear(t, i) {
        if i < |front| - 1 {
          assert DigitNear(front, i);
        }
      }
    }
  }

  lemma DigitTextUnderscore(front: string, c: char)
    requires IsDigit(c)
    ensures IsDigitText(front + ['_', c]) <==> IsDigitText(front)
  {
    var t := front + ['_', c];
    var n := |front|;
    assert t[n] == '_' && t[n + 1] == c;
    assert forall i :: 0 <= i < n ==> t[i] == front[i];
    if IsDigitText(t) {
      assert n > 0 && DigitNear(t, n - 1);
      forall i | 0 <= i < n - 1 ensures DigitNear(front, i) {
        assert DigitNear(t, i);
      }
    }
    if IsDigitText(front) {
      forall i | 0 <= i < |t| - 1 ensures DigitNear(t, i) {
        if i < n - 1 {
          assert DigitNear(front, i);
        }
      }
    }
  }

  // Any other character before the last digit makes the text none.
  lemma DigitTextOther(front: string, d: char, c: char)
    requires !IsDigit(d) && d != '_'
    ensures !IsDigitText(front + [d, c])
  {
    assert (front + [d, c])[|front|] == d;
  }

  lemma NoDigitText(t: string)
    requires t == "" || !IsDigit(t[|t| - 1])
    ensures !IsDigitText(t)
  {
  }

  lemma OneDigit(c: char)
    requires IsDigit(c)
    ensures IsDigitText([c]) && DigitsValue(Digits([c])) == DigitValue(c)
  {
    assert [c] == "" + [c];
    DigitsLast("", c);
    ValueLast("", c);
  }

  // Which texts are read as a number, and as which.
  lemma {:induction false} DigitRunIs(t: string)
    ensures DigitRun(t) == if IsDigitText(t) then Some(DigitsValue(Digits(t))) else None
    decreases |t|
  {
    hide DigitsValue, Digits, IsDigitText, DigitValue;
    if t == "" || !IsDigit(t[|t| - 1]) {
      NoDigitText(t);
    } else if |t| == 1 {
      OneDigit(t[0]);
      assert t == [t[0]];
    } else {
      var shorter, d, c := t[..|t| - 2], t[|t| - 2], t[|t| - 1];
      var front := t[..|t| - 1];
      assert front == shorter + [d] && t == front + [c] && t == shorter + [d, c];
      DigitsLast(front, c);
      DigitsLast(shorter, d);
      if d == '_' {
        DigitTextUnderscore(shorter, c);
        DigitRunIs(shorter);
        ValueLast(Digits(shorter), c);
      } else {
        if IsDigit(d) {
          DigitTextFront(front, c);
        } else {
          DigitTextOther(shorter, d, c);
          NoDigitText(front);
        }
        DigitRunIs(front);
        ValueLast(Digits(front), c);
      }
    }
  }

  // The number a text stands for, without the white space around it: digits, with one sign before them or none.
  function SignedValue(t: string): Option<int> {
    if IsDigitText(t) then Some(DigitsValue(Digits(t)))
    else if t != "" && t[0] == '+' && IsDigitText(t[1..]) then Some(DigitsValue(Digits(t[1..])))
    else if t != "" && t[0] == '-' && IsDigitText(t[1..]) then
      var n: int := DigitsValue(Digits(t[1..]));
      Some(-n)
    else None
  }

  lemma PyIntIs(s: string)
    ensures PyInt(s) == SignedValue(Strip(s, WHITESPACE))
  {
    hide DigitsValue, Digits, DigitRun, Strip;
    var t := Strip(s, WHITESPACE);
    DigitRunIs(t);
    if t != "" {
      DigitRunIs(t[1..]);
    }
  }

  // Without a number, or with a negative one, a span or offset has its default.
  lemma PositiveIntDefaults(s: string, default: nat)
    ensures PositiveInt(None, default) == default
    ensures PyInt(s).None? || PyInt(s).value < 0 ==> PositiveInt(Some(s), default) == default
  {
    assert Strip("", WHITESPACE) == "";
  }

  // ---------- Rows and cells as written ----------

  // A cell without w:tcPr, or one with a written span, if any, and a merge marker, if any.
  datatype CellSpec = Bare(items: seq<Node>) | Full(span: Option<nat>, merge: Option<VMerge>, items: seq<Node>)

  datatype RowSpec = RowSpec(before: Option<nat>, cells: seq<CellSpec>)

  function Number(n: Option<nat>): Option<string> {
    match n { case None => None case Some(k) => Some(Decimal(k)) }
  }

  function CellNode(c: CellSpec): Node {
    match c
    case Bare(items) => Cell(None, items)
    case Full(span, merge, items) => Cell(Some(CellProps(merge, Number(span))), items)
  }

  function RowNode(row: RowSpec): Node {
    Row(Number(row.before), seq(|row.cells|, k requires 0 <= k < |row.cells| => CellNode(row.cells[k])))
  }

  function TableNodes(rows: seq<RowSpec>): seq<Node> {
    seq(|rows|, r requires 0 <= r < |rows| => RowNode(rows[r]))
  }

  // A cell without a written span is one column wide.
  function Width(c: CellSpec): nat {
    if c.Full? && c.span.Some? then c.span.value else 1
  }

  // A cell starts after the columns skipped before the row and the widths of the cells before it.
  function Start(row: RowSpec, k: nat): nat
    requires k <= |row.cells|
  {
    if k == 0 then (if row.before.Some? then row.before.value else 0)
    else Start(row, k - 1) + Width(row.cells[k - 1])
  }

  lemma SpanReads(c: CellSpec)
    ensures CellNode(c).Cell? && GridSpan(CellNode(c)) == Width(c)
  {
    PositiveIntDefaults("", 1);
    if c.Full? && c.span.Some? {
      PositiveIntReadsDecimal(c.span.value, 1);
    }
  }

  lemma {:induction false} ColumnReads(row: RowSpec, k: nat)
    requires k <= |row.cells|
    ensures Column(RowNode(row), k) == Start(row, k)
  {
    if k == 0 {
      PositiveIntDefaults("", 0);
      if row.before.Some? {
        PositiveIntReadsDecimal(row.before.value, 0);
      }
    } else {
      ColumnReads(row, k - 1);
      SpanReads(row.cells[k - 1]);
    }
  }

  // ---------- A merge from its top to its bottom ----------

  predicate IsTop(c: CellSpec) {
    c.Full? && c.merge == Some(VMerge(Some("restart")))
  }

  // Any other marker, the bare one included, goes on with the merge above.
  predicate GoesOn(c: CellSpec) {
    c.Full? && c.merge.Some? && c.merge.value.val != Some("restart")
  }

  // From row top on, cell ks[0], ks[1], ... of each next row: the first starts a merge and the others go on with it,
  // all at the same columns.
  ghost predicate IsMerge(rows: seq<RowSpec>, top: nat, ks: seq<nat>) {
    && ks != [] && top + |ks| <= |rows|
    && (forall i :: 0 <= i < |ks| ==> ks[i] < |rows[top + i].cells|)
    && IsTop(rows[top].cells[ks[0]]) && Width(rows[top].cells[ks[0]]) > 0
    && (forall i :: 0 < i < |ks| ==> GoesOn(rows[top + i].cells[ks[i]]))
    && (forall i :: 0 < i < |ks| ==>
          Start(rows[top + i], ks[i]) == Start(rows[top], ks[0]) &&
          Width(rows[top + i].cells[ks[i]]) == Width(rows[top].cells[ks[0]]))
  }

  lemma CoversReads(row: RowSpec, k: nat, c: nat)
    requires k < |row.cells|
    ensures Covers(RowNode(row), k, c) <==> Start(row, k) <= c < Start(row, k) + Width(row.cells[k])
  {
    ColumnReads(row, k);
    SpanReads(row.cells[k]);
  }

  // A continuation cell that begins at a column of a cell with a master, in the row right above, has that master.
  lemma MasterFromAbove(items: seq<Node>, r: nat, k: nat, j: nat)
    requires 0 < r < |items| && items[r - 1].Row? && items[r].Row? && j < |items[r - 1].items|
    requires k < |items[r].items| && IsContinuation(items[r].items[k]) && GridSpan(items[r].items[k]) > 0
    requires Covers(items[r - 1], j, Column(items[r], k)) && CellMaster(items, r - 1, j).Some?
    ensures CellMaster(items, r, k) == CellMaster(items, r - 1, j)
  {
    hide Covers, Column, OpenInRow, GridSpan;
    var lo := Column(items[r], k);
    OpenInRowAt(items, r - 1, |items[r - 1].items|, j, lo);
    assert OpenAt(items, r, lo) == OpenInRow(items, r - 1, |items[r - 1].items|, lo);
    assert FirstOpen(items, r, lo, lo + GridSpan(items[r].items[k])) == OpenAt(items, r, lo);
  }

  lemma MergePlace(rows: seq<RowSpec>, top: nat, ks: seq<nat>, i: nat)
    requires IsMerge(rows, top, ks) && i < |ks|
    ensures top + i < |rows| && ks[i] < |rows[top + i].cells| && ks[0] < |rows[top].cells|
    ensures Start(rows[top + i], ks[i]) == Start(rows[top], ks[0])
    ensures Width(rows[top + i].cells[ks[i]]) == Width(rows[top].cells[ks[0]]) > 0
  {
    hide Start, Width, IsTop, GoesOn;
  }

  lemma MergeCovers(rows: seq<RowSpec>, top: nat, ks: seq<nat>, i: nat)
    requires IsMerge(rows, top, ks) && i < |ks|
    ensures Covers(RowNode(rows[top + i]), ks[i], Start(rows[top], ks[0]))
  {
    hide GridSpan, Column, Start, Width, IsMerge;
    MergePlace(rows, top, ks, i);
    CoversReads(rows[top + i], ks[i], Start(rows[top], ks[0]));
  }

  lemma MergeMarker(rows: seq<RowSpec>, top: nat, ks: seq<nat>, i: nat)
    requires IsMerge(rows, top, ks) && i < |ks|
    ensures var item := RowNode(rows[top + i]).items[ks[i]];
      && item == CellNode(rows[top + i].cells[ks[i]])
      && (if i == 0 then IsRestart(item) else IsContinuation(item))
  {
    hide Start, Width;
  }

  lemma MergePrefix(rows: seq<RowSpec>, top: nat, ks: seq<nat>, n: nat)
    requires IsMerge(rows, top, ks) && 0 < n <= |ks|
    ensures IsMerge(rows, top, ks[..n])
  {
    hide Start, Width, IsTop, GoesOn;
  }

  // The master of the lowest cell of a merge is its top cell.
  lemma {:induction false} MergeMaster(rows: seq<RowSpec>, top: nat, ks: seq<nat>)
    requires IsMerge(rows, top, ks)
    ensures CellMaster(TableNodes(rows), top + |ks| - 1, ks[|ks| - 1]) == Some(Pos(top, ks[0]))
    decreases |ks|
  {
    hide GridSpan, Column, Start, Width, Covers, CellNode, IsTop, GoesOn, FirstOpen;
    var items, n := TableNodes(rows), |ks| - 1;
    MergeMarker(rows, top, ks, n);
    if n > 0 {
      MergePlace(rows, top, ks, n);
      ColumnReads(rows[top + n], ks[n]);
      SpanReads(rows[top + n].cells[ks[n]]);
      MergeCovers(rows, top, ks, n - 1);
      MergePrefix(rows, top, ks, n);
      MergeMaster(rows, top, ks[..n]);
      MasterFromAbove(items, top + n, ks[n], ks[n - 1]);
    }
  }

  function Plainly(c: CellSpec, items: seq<Node>): CellSpec {
    if c.Full? then Full(c.span, None, items) else Bare(items)
  }

  lemma MergeCellFilled(rows: seq<RowSpec>, top: nat, ks: seq<nat>, i: nat)
    requires IsMerge(rows, top, ks) && i < |ks|
    ensures FilledItem(TableNodes(rows), top + i, ks[i]) ==
      CellNode(Plainly(rows[top + i].cells[ks[i]], rows[top].cells[ks[0]].items))
  {
    hide GridSpan, Column, Start, Width, CellMaster;
    MergePrefix(rows, top, ks, i + 1);
    MergeMaster(rows, top, ks[..i + 1]);
    MergeMarker(rows, top, ks, i);
  }

  lemma FilledAt(items: seq<Node>, r: nat, k: nat)
    requires r < |items| && items[r].Row? && k < |items[r].items|
    ensures var filled := FilledTable(Table(items)).items;
      |filled| == |items| && |filled[r].items| == |items[r].items| && filled[r].items[k] == FilledItem(items, r, k)
  {
    hide FilledItem;
  }

  // Every cell of a merge gets the content of its top cell and loses its marker; its span stays.
  lemma MergeFilled(rows: seq<RowSpec>, top: nat, ks: seq<nat>, i: nat)
    requires IsMerge(rows, top, ks) && i < |ks|
    ensures var filled := FilledTable(Table(TableNodes(rows))).items;
      && |filled| == |rows| && |filled[top + i].items| == |rows[top + i].cells|
      && filled[top + i].items[ks[i]] ==
           CellNode(Plainly(rows[top + i].cells[ks[i]], rows[top].cells[ks[0]].items))
  {
    hide FilledItem, CellNode, IsTop, GoesOn, Start, Width;
    MergeCellFilled(rows, top, ks, i);
    FilledAt(TableNodes(rows), top + i, ks[i]);
  }

  predicate IsUnmarked(c: CellSpec) {
    c.Bare? || c.merge.None?
  }

  lemma UnmarkedNoMaster(rows: seq<RowSpec>, r: nat, k: nat)
    requires r < |rows| && k < |rows[r].cells| && IsUnmarked(rows[r].cells[k])
    ensures CellMaster(TableNodes(rows), r, k) == None
  {
    hide GridSpan, Column, FirstOpen;
  }

  // A cell with no marker stays as it is.
  lemma UnmarkedStays(rows: seq<RowSpec>, r: nat, k: nat)
    requires r < |rows| && k < |rows[r].cells| && IsUnmarked(rows[r].cells[k])
    ensures FilledItem(TableNodes(rows), r, k) == CellNode(rows[r].cells[k])
  {
    hide CellMaster;
    UnmarkedNoMaster(rows, r, k);
  }

  // Two cells of different rows have a column in common.
  predicate Overlap(a: RowSpec, j: nat, b: RowSpec, k: nat)
    requires j < |a.cells| && k < |b.cells|
  {
    Start(a, j) < Start(b, k) + Width(b.cells[k]) && Start(b, k) < Start(a, j) + Width(a.cells[j])
  }

  // No cell of the row over a column of cell k is marked.
  ghost predicate UnmarkedOver(above: RowSpec, row: RowSpec, k: nat)
    requires k < |row.cells|
  {
    forall j :: 0 <= j < |above.cells| && Overlap(above, j, row, k) ==> IsUnmarked(above.cells[j])
  }

  // A cell that goes on with a merge stays as it is, marker and all, in the first row and under unmarked cells.
  lemma UnopenedStays(rows: seq<RowSpec>, r: nat, k: nat)
    requires r < |rows| && k < |rows[r].cells| && GoesOn(rows[r].cells[k])
    requires r > 0 ==> UnmarkedOver(rows[r - 1], rows[r], k)
    ensures FilledItem(TableNodes(rows), r, k) == CellNode(rows[r].cells[k])
  {
    hide GridSpan, Column, Start, Width, Covers, CellMaster, UnmarkedOver;
    var items := TableNodes(rows);
    if CellMaster(items, r, k).Some? {
      var q := MasterStep(items, Pos(r, k));
      assert items[r - 1].Row? && q.row == r - 1;
      var c :| Covers(items[r], k, c) && Covers(items[q.row], q.cell, c);
      UnmarkedAbove(rows[r - 1], rows[r], k, q.cell, c);
      UnmarkedNoMaster(rows, q.row, q.cell);
    }
  }

  lemma UnmarkedAbove(above: RowSpec, row: RowSpec, k: nat, j: nat, c: nat)
    requires k < |row.cells| && j < |above.cells| && UnmarkedOver(above, row, k)
    requires Covers(RowNode(row), k, c) && Covers(RowNode(above), j, c)
    ensures IsUnmarked(above.cells[j])
  {
    CoversReads(row, k, c);
    CoversReads(above, j, c);
    assert Overlap(above, j, row, k);
  }

  // ---------- An ordinary merge ----------

  // A row of cells without gridSpan, without gridBefore.
  ghost predicate IsOrdinary(row: Node) {
    && row.Row? && row.gridBefore == None
    && forall k :: 0 <= k < |row.items| ==>
         row.items[k].Cell? && (row.items[k].props.Some? ==> row.items[k].props.value.gridSpan == None)
  }

  lemma {:induction false} OrdinaryColumn(row: Node, k: nat)
    requires IsOrdinary(row) && k <= |row.items|
    ensures Column(row, k) == k
    ensures k < |row.items| ==> row.items[k].Cell? && GridSpan(row.items[k]) == 1
  {
    PositiveIntDefaults("", 0);
    PositiveIntDefaults("", 1);
    if k > 0 {
      OrdinaryColumn(row, k - 1);
    }
  }

  // Cells k of rows top..r of a table of ordinary rows, the first starting a merge and the others with a bare marker.
  ghost predicate IsOrdinaryMerge(items: seq<Node>, top: nat, r: nat, k: nat) {
    && top <= r < |items|
    && forall i :: top <= i <= r ==>
         IsOrdinary(items[i]) && k < |items[i].items| &&
         items[i].items[k].props == Some(CellProps(Some(VMerge(if i == top then Some("restart") else None)), None))
  }

  lemma {:induction false} OrdinaryMaster(items: seq<Node>, top: nat, r: nat, k: nat)
    requires IsOrdinaryMerge(items, top, r, k)
    ensures CellMaster(items, r, k) == Some(Pos(top, k))
    decreases r
  {
    hide Column, GridSpan, Covers;
    OrdinaryColumn(items[r], k);
    if top < r {
      OrdinaryMaster(items, top, r - 1, k);
      OrdinaryCovers(items[r - 1], k);
      MasterFromAbove(items, r, k, k);
    }
  }

  lemma OrdinaryCovers(row: Node, k: nat)
    requires IsOrdinary(row) && k < |row.items|
    ensures Covers(row, k, k)
  {
    OrdinaryColumn(row, k);
  }

  // All of them get the content of the top cell, without a marker.
  lemma OrdinaryMergeFilled(items: seq<Node>, top: nat, r: nat, k: nat)
    requires IsOrdinaryMerge(items, top, r, k)
    ensures var filled := FilledTable(Table(items)).items;
      |filled| == |items| && |filled[r].items| == |items[r].items| &&
      filled[r].items[k] == Cell(Some(CellProps(None, None)), items[top].items[k].items)
  {
    hide CellMaster, Column, GridSpan;
    OrdinaryMaster(items, top, r, k);
    FilledAt(items, r, k);
  }
}
