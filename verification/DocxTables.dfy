// Word table XML as docx_merge.py reads it, and the meaning of its vertical merges:
// where the content shown in a vMerge cell comes from.
module DocxTables {
  import opened Wrappers
  import opened Text

  datatype VMerge = VMerge(val: Option<string>)

  // The parts of w:tcPr the program looks at. An absent gridSpan element and one without
  // a w:val attribute read alike.
  datatype CellProps = CellProps(vMerge: Option<VMerge>, gridSpan: Option<string>)

  // An element of a Word XML part. `items` are its children in document order; a cell's w:tcPr and a
  // row's w:trPr are kept apart from them, because the program never copies or removes those.
  datatype Node =
    | Table(items: seq<Node>)
    | Row(gridBefore: Option<string>, items: seq<Node>)
    | Cell(props: Option<CellProps>, items: seq<Node>)
    | Other(name: string, items: seq<Node>)

  function WithItems(n: Node, items: seq<Node>): (r: Node)
    ensures r.items == items
    ensures (r.Table? <==> n.Table?) && (r.Row? <==> n.Row?) && (r.Cell? <==> n.Cell?)
    ensures n.Row? ==> r.gridBefore == n.gridBefore
    ensures n.Cell? ==> r.props == n.props
  {
    match n
    case Table(_) => Table(items)
    case Row(gridBefore, _) => Row(gridBefore, items)
    case Cell(props, _) => Cell(props, items)
    case Other(name, _) => Other(name, items)
  }

  // The place of a cell in a table: item `row` of the table, item `cell` of that row.
  datatype Pos = Pos(row: nat, cell: nat)

  // ---------- Integers read from attributes ----------

  // Python's int(s) on ASCII text, None standing for ValueError: surrounding white space, a sign, and
  // digits with single underscores between them.
  function PyInt(s: string): Option<int> {
    var t := Strip(s, WHITESPACE);
    if t == "" then None
    else if t[0] == '-' then
      match DigitRun(t[1..]) { case Some(n) => Some(-n) case None => None }
    else if t[0] == '+' then DigitRun(t[1..])
    else DigitRun(t)
  }

  function DigitRun(t: string): Option<int> {
    if t == "" || !IsDigit(t[|t| - 1]) then None
    else if |t| == 1 then Some(DigitValue(t[0]))
    else
      var front := if t[|t| - 2] == '_' then t[..|t| - 2] else t[..|t| - 1];
      match DigitRun(front)
      case None => None
      case Some(n) => Some(10 * n + DigitValue(t[|t| - 1]))
  }

  function PositiveInt(value: Option<string>, default: nat): nat {
    match PyInt(match value { case Some(v) => v case None => "" })
    case Some(n) => if n >= 0 then n else default
    case None => default
  }

  // The number a document wrote is the number read back.
  lemma PositiveIntReadsDecimal(n: nat, default: nat)
    ensures PositiveInt(Some(Decimal(n)), default) == n
  {
    var s := Decimal(n);
    assert s[0] !in WHITESPACE && s[|s| - 1] !in WHITESPACE;
    assert StripLeft(s, WHITESPACE) == s;
    assert StripRight(s, WHITESPACE) == s;
    DigitRunDecimal(n);
  }

  lemma {:induction false} DigitRunDecimal(n: nat)
    ensures DigitRun(Decimal(n)) == Some(n)
  {
    var s := Decimal(n);
    if n >= 10 {
      DigitRunDecimal(n / 10);
      assert s[..|s| - 1] == Decimal(n / 10);
      assert s[|s| - 2] == s[..|s| - 1][|s| - 2];
      assert IsDigit(s[|s| - 2]);
    }
  }

  // ---------- The column grid ----------

  function GridSpan(cell: Node): nat
    requires cell.Cell?
  {
    match cell.props
    case None => 1
    case Some(p) => PositiveInt(p.gridSpan, 1)
  }

  // The grid column at which item k of a row starts.
  function Column(row: Node, k: nat): nat
    requires row.Row? && k <= |row.items|
  {
    if k == 0 then PositiveInt(row.gridBefore, 0)
    else Column(row, k - 1) + (if row.items[k - 1].Cell? then GridSpan(row.items[k - 1]) else 0)
  }

  predicate Covers(row: Node, k: nat, c: nat)
    requires row.Row? && k < |row.items|
  {
    row.items[k].Cell? && Column(row, k) <= c < Column(row, k) + GridSpan(row.items[k])
  }

  predicate HasMarker(cell: Node) {
    cell.Cell? && cell.props.Some? && cell.props.value.vMerge.Some?
  }

  predicate IsRestart(cell: Node) {
    HasMarker(cell) && cell.props.value.vMerge.value.val == Some("restart")
  }

  // Any other value, and no value at all, continues the merge above.
  predicate IsContinuation(cell: Node) {
    HasMarker(cell) && !IsRestart(cell)
  }

  // ---------- The master of a merge cell ----------

  ghost predicate IsMaster(items: seq<Node>, p: Pos) {
    p.row < |items| && items[p.row].Row? && p.cell < |items[p.row].items| && IsRestart(items[p.row].items[p.cell])
  }

  // The restart cell whose content belongs in the marked cell k of row r: itself for a restart cell; for a
  // continuation cell, the one reached upwards through its first column with a merge still open.
  function CellMaster(items: seq<Node>, r: nat, k: nat): (m: Option<Pos>)
    requires r < |items| && items[r].Row? && k < |items[r].items|
    ensures m.Some? ==> m.value.row <= r && IsMaster(items, m.value)
    ensures IsContinuation(items[r].items[k]) && m.Some? ==> m.value.row < r
    decreases r, 3, 0
  {
    var row := items[r];
    if IsRestart(row.items[k]) then Some(Pos(r, k))
    else if IsContinuation(row.items[k]) then
      FirstOpen(items, r, Column(row, k), Column(row, k) + GridSpan(row.items[k]))
    else None
  }

  // The merge open at the first column of [lo, hi) that has one, below the first n items of the table.
  function FirstOpen(items: seq<Node>, n: nat, lo: nat, hi: nat): (m: Option<Pos>)
    requires n <= |items| && lo <= hi
    ensures m.Some? ==> m.value.row < n && IsMaster(items, m.value)
    decreases n, 2, hi - lo
  {
    if lo == hi then None
    else if OpenAt(items, n, lo).Some? then OpenAt(items, n, lo)
    else FirstOpen(items, n, lo + 1, hi)
  }

  // The master of the merge open at grid column c below the first n items of the table.
  function OpenAt(items: seq<Node>, n: nat, c: nat): (m: Option<Pos>)
    requires n <= |items|
    ensures m.Some? ==> m.value.row < n && IsMaster(items, m.value)
    decreases n, 1, 0
  {
    if n == 0 then None
    else if items[n - 1].Row? then OpenInRow(items, n - 1, |items[n - 1].items|, c)
    else OpenAt(items, n - 1, c)
  }

  // The master that the first k items of row r leave open at column c.
  function OpenInRow(items: seq<Node>, r: nat, k: nat, c: nat): (m: Option<Pos>)
    requires r < |items| && items[r].Row? && k <= |items[r].items|
    ensures m.Some? ==> m.value.row <= r && IsMaster(items, m.value)
    decreases r, 4, k
  {
    if k == 0 then None
    else if Covers(items[r], k - 1, c) then CellMaster(items, r, k - 1)
    else OpenInRow(items, r, k - 1, c)
  }

  // ---------- The filled table ----------

  function ClearMarker(cell: Node): Node
    requires HasMarker(cell)
  {
    Cell(Some(cell.props.value.(vMerge := None)), cell.items)
  }

  // What row r, item k becomes: a restart cell loses its marker; a continuation cell with a master takes the
  // master's content and loses its marker; everything else stays.
  function FilledItem(items: seq<Node>, r: nat, k: nat): Node
    requires r < |items| && items[r].Row? && k < |items[r].items|
  {
    var item := items[r].items[k];
    match CellMaster(items, r, k)
    case None => item
    case Some(m) => WithItems(ClearMarker(item), items[m.row].items[m.cell].items)
  }

  // Row r with its first k items filled.
  function FilledRow(items: seq<Node>, r: nat, k: nat): Node
    requires r < |items| && items[r].Row? && k <= |items[r].items|
  {
    var row := items[r];
    Row(row.gridBefore, seq(|row.items|, j requires 0 <= j < |row.items| =>
      if j < k then FilledItem(items, r, j) else row.items[j]))
  }

  // The table's items with the rows before r filled.
  function FilledRows(items: seq<Node>, r: nat): seq<Node>
    requires r <= |items|
  {
    seq(|items|, i requires 0 <= i < |items| =>
      if i < r && items[i].Row? then FilledRow(items, i, |items[i].items|) else items[i])
  }

  function FilledTable(table: Node): Node
    requires table.Table?
  {
    Table(FilledRows(table.items, |table.items|))
  }

  predicate IsFilled(items: seq<Node>, r: nat, k: nat)
    requires r < |items| && items[r].Row? && k < |items[r].items|
  {
    IsContinuation(items[r].items[k]) && CellMaster(items, r, k).Some?
  }

  // How many of the first k items of row r are continuation cells with a master.
  function FillsInRow(items: seq<Node>, r: nat, k: nat): nat
    requires r < |items| && items[r].Row? && k <= |items[r].items|
  {
    if k == 0 then 0
    else if IsFilled(items, r, k - 1) then
      FillsInRow(items, r, k - 1) + 1
    else FillsInRow(items, r, k - 1)
  }

  function Fills(items: seq<Node>, n: nat): nat
    requires n <= |items|
  {
    if n == 0 then 0
    else Fills(items, n - 1) + (if items[n - 1].Row? then FillsInRow(items, n - 1, |items[n - 1].items|) else 0)
  }

  // Whether some cell of the table's own rows starts a merge, in the first n items.
  predicate HasRestart(items: seq<Node>, n: nat)
    requires n <= |items|
  {
    exists r, k :: 0 <= r < n && items[r].Row? && 0 <= k < |items[r].items| && IsRestart(items[r].items[k])
  }

  // ---------- Facts about one table ----------

  // Filling leaves no restart marker in the table's own cells.
  lemma NoRestartAfterFill(table: Node)
    requires table.Table?
    ensures !HasRestart(FilledTable(table).items, |table.items|)
  {
    var items := table.items;
    var filled := FilledTable(table).items;
    forall r, k | 0 <= r < |items| && filled[r].Row? && 0 <= k < |filled[r].items|
      ensures !IsRestart(filled[r].items[k])
    {
      assert filled[r].items[k] == FilledItem(items, r, k);
    }
  }

  // With no restart cell no merge is ever open, so nothing has a master.
  lemma NoRestartNoMaster(items: seq<Node>)
    requires !HasRestart(items, |items|)
    ensures Fills(items, |items|) == 0
    ensures FilledRows(items, |items|) == items
  {
    forall r, k | 0 <= r < |items| && items[r].Row? && 0 <= k < |items[r].items|
      ensures CellMaster(items, r, k) == None
    {}
    NoMasterNoFills(items, |items|);
    forall r | 0 <= r < |items| && items[r].Row?
      ensures FilledRow(items, r, |items[r].items|) == items[r]
    {
      assert FilledRow(items, r, |items[r].items|).items == items[r].items;
    }
  }

  lemma NoMasterNoFills(items: seq<Node>, n: nat)
    requires n <= |items|
    requires forall r, k :: 0 <= r < |items| && items[r].Row? && 0 <= k < |items[r].items| ==>
      CellMaster(items, r, k) == None
    ensures Fills(items, n) == 0
  {
    if n > 0 {
      NoMasterNoFills(items, n - 1);
      if items[n - 1].Row? {
        NoMasterNoFillsInRow(items, n - 1, |items[n - 1].items|);
      }
    }
  }

  lemma NoMasterNoFillsInRow(items: seq<Node>, r: nat, k: nat)
    requires r < |items| && items[r].Row? && k <= |items[r].items|
    requires forall j :: 0 <= j < k ==> CellMaster(items, r, j) == None
    ensures FillsInRow(items, r, k) == 0
  {
  }

  // ---------- The grid survives filling ----------

  // Tables with the same rows, cells, spans and markers, whatever their cells contain.
  ghost predicate SameGrid(a: seq<Node>, b: seq<Node>) {
    |a| == |b| &&
    forall r :: 0 <= r < |a| ==> SameShape(a[r], b[r])
  }

  ghost predicate SameShape(a: Node, b: Node) {
    (a.Row? <==> b.Row?) &&
    (a.Row? ==>
      a.gridBefore == b.gridBefore && |a.items| == |b.items| &&
      forall k :: 0 <= k < |a.items| ==>
        (a.items[k].Cell? <==> b.items[k].Cell?) && (a.items[k].Cell? ==> a.items[k].props == b.items[k].props))
  }

  // The columns of a row depend on its spans only, so clearing markers and replacing content moves no cell.
  lemma {:induction false} FillKeepsColumns(items: seq<Node>, r: nat, k: nat)
    requires r < |items| && items[r].Row? && k <= |items[r].items|
    ensures var filled := FilledRow(items, r, |items[r].items|);
      && |filled.items| == |items[r].items|
      && Column(filled, k) == Column(items[r], k)
      && (k < |items[r].items| ==> (filled.items[k].Cell? <==> items[r].items[k].Cell?))
      && (k < |items[r].items| && items[r].items[k].Cell? ==> GridSpan(filled.items[k]) == GridSpan(items[r].items[k]))
  {
    if k > 0 {
      FillKeepsColumns(items, r, k - 1);
    }
  }

  function ContinuationsInRow(row: Node, k: nat): nat
    requires row.Row? && k <= |row.items|
  {
    if k == 0 then 0
    else if IsContinuation(row.items[k - 1]) then ContinuationsInRow(row, k - 1) + 1
    else ContinuationsInRow(row, k - 1)
  }

  // The continuation markers in the table's own cells, in its first n items.
  function Continuations(items: seq<Node>, n: nat): nat
    requires n <= |items|
  {
    if n == 0 then 0
    else
      Continuations(items, n - 1) +
      (if items[n - 1].Row? then ContinuationsInRow(items[n - 1], |items[n - 1].items|) else 0)
  }

  // The reported count is exactly the number of continuation markers that disappear.
  lemma {:induction false} FillsCountMarkers(items: seq<Node>, n: nat)
    requires n <= |items|
    ensures Continuations(items, n) == Continuations(FilledRows(items, |items|), n) + Fills(items, n)
  {
    if n > 0 {
      FillsCountMarkers(items, n - 1);
      if items[n - 1].Row? {
        FillsInRowCountMarkers(items, n - 1, |items[n - 1].items|);
      }
    }
  }

  lemma {:induction false} FillsInRowCountMarkers(items: seq<Node>, r: nat, k: nat)
    requires r < |items| && items[r].Row? && k <= |items[r].items|
    ensures ContinuationsInRow(items[r], k) ==
      ContinuationsInRow(FilledRow(items, r, |items[r].items|), k) + FillsInRow(items, r, k)
  {
    if k > 0 {
      FillsInRowCountMarkers(items, r, k - 1);
      assert FilledRow(items, r, |items[r].items|).items[k - 1] == FilledItem(items, r, k - 1);
      FilledItemMarker(items, r, k - 1);
    }
  }

  lemma FilledItemMarker(items: seq<Node>, r: nat, k: nat)
    requires r < |items| && items[r].Row? && k < |items[r].items|
    ensures IsContinuation(FilledItem(items, r, k)) <==> IsContinuation(items[r].items[k]) && !IsFilled(items, r, k)
  {
  }

  // ---------- Masters depend on the grid only ----------

  lemma {:induction false} SameGridColumn(a: Node, b: Node, k: nat)
    requires a.Row? && SameShape(a, b) && k <= |a.items|
    ensures Column(a, k) == Column(b, k)
  {
    if k > 0 {
      SameGridColumn(a, b, k - 1);
    }
  }

  lemma {:induction false} SameGridCellMaster(a: seq<Node>, b: seq<Node>, r: nat, k: nat)
    requires SameGrid(a, b) && r < |a| && a[r].Row? && k < |a[r].items|
    ensures CellMaster(a, r, k) == CellMaster(b, r, k)
    decreases r, 3, 0
  {
    assert SameShape(a[r], b[r]);
    SameGridColumn(a[r], b[r], k);
    if IsContinuation(a[r].items[k]) {
      SameGridFirstOpen(a, b, r, Column(a[r], k), Column(a[r], k) + GridSpan(a[r].items[k]));
    }
  }

  lemma {:induction false} SameGridFirstOpen(a: seq<Node>, b: seq<Node>, n: nat, lo: nat, hi: nat)
    requires SameGrid(a, b) && n <= |a| && lo <= hi
    ensures FirstOpen(a, n, lo, hi) == FirstOpen(b, n, lo, hi)
    decreases n, 2, hi - lo
  {
    if lo < hi {
      SameGridOpenAt(a, b, n, lo);
      SameGridFirstOpen(a, b, n, lo + 1, hi);
    }
  }

  lemma {:induction false} SameGridOpenAt(a: seq<Node>, b: seq<Node>, n: nat, c: nat)
    requires SameGrid(a, b) && n <= |a|
    ensures OpenAt(a, n, c) == OpenAt(b, n, c)
    decreases n, 1, 0
  {
    if n > 0 {
      assert SameShape(a[n - 1], b[n - 1]);
      if a[n - 1].Row? {
        SameGridOpenInRow(a, b, n - 1, |a[n - 1].items|, c);
      } else {
        SameGridOpenAt(a, b, n - 1, c);
      }
    }
  }

  lemma {:induction false} SameGridOpenInRow(a: seq<Node>, b: seq<Node>, r: nat, k: nat, c: nat)
    requires SameGrid(a, b) && r < |a| && a[r].Row? && k <= |a[r].items|
    ensures SameShape(a[r], b[r]) && OpenInRow(a, r, k, c) == OpenInRow(b, r, k, c)
    decreases r, 4, k
  {
    assert SameShape(a[r], b[r]);
    if k > 0 {
      SameGridColumn(a[r], b[r], k - 1);
      SameGridCellMaster(a, b, r, k - 1);
      SameGridOpenInRow(a, b, r, k - 1, c);
    }
  }

  lemma {:induction false} SameGridFills(a: seq<Node>, b: seq<Node>, n: nat)
    requires SameGrid(a, b) && n <= |a|
    ensures Fills(a, n) == Fills(b, n)
  {
    if n > 0 {
      SameGridFills(a, b, n - 1);
      assert SameShape(a[n - 1], b[n - 1]);
      if a[n - 1].Row? {
        SameGridFillsInRow(a, b, n - 1, |a[n - 1].items|);
      }
    }
  }

  lemma {:induction false} SameGridFillsInRow(a: seq<Node>, b: seq<Node>, r: nat, k: nat)
    requires SameGrid(a, b) && r < |a| && a[r].Row? && k <= |a[r].items|
    ensures SameShape(a[r], b[r]) && FillsInRow(a, r, k) == FillsInRow(b, r, k)
  {
    assert SameShape(a[r], b[r]);
    if k > 0 {
      SameGridFillsInRow(a, b, r, k - 1);
      SameGridIsFilled(a, b, r, k - 1);
    }
  }

  lemma SameGridIsFilled(a: seq<Node>, b: seq<Node>, r: nat, k: nat)
    requires SameGrid(a, b) && r < |a| && a[r].Row? && k < |a[r].items|
    ensures SameShape(a[r], b[r]) && (IsFilled(a, r, k) <==> IsFilled(b, r, k))
  {
    assert SameShape(a[r], b[r]);
    SameGridCellMaster(a, b, r, k);
  }

  lemma SameGridHasRestart(a: seq<Node>, b: seq<Node>)
    requires SameGrid(a, b)
    ensures HasRestart(a, |a|) <==> HasRestart(b, |b|)
  {
    if HasRestart(a, |a|) {
      var r, k :| 0 <= r < |a| && a[r].Row? && 0 <= k < |a[r].items| && IsRestart(a[r].items[k]);
      assert SameShape(a[r], b[r]);
      assert IsRestart(b[r].items[k]);
    }
    if HasRestart(b, |b|) {
      var r, k :| 0 <= r < |b| && b[r].Row? && 0 <= k < |b[r].items| && IsRestart(b[r].items[k]);
      assert SameShape(a[r], b[r]);
      assert IsRestart(a[r].items[k]);
    }
  }

  // ---------- Masters as chains of marked cells ----------

  ghost predicate IsCellAt(items: seq<Node>, p: Pos) {
    p.row < |items| && items[p.row].Row? && p.cell < |items[p.row].items| && items[p.row].items[p.cell].Cell?
  }

  function At(items: seq<Node>, p: Pos): Node
    requires IsCellAt(items, p)
  {
    items[p.row].items[p.cell]
  }

  // b stands in the row directly above a and shares a grid column with it.
  ghost predicate Touches(items: seq<Node>, a: Pos, b: Pos)
    requires IsCellAt(items, a) && IsCellAt(items, b)
  {
    b.row < a.row &&
    (forall r :: b.row < r < a.row ==> !items[r].Row?) &&
    exists c :: Covers(items[a.row], a.cell, c) && Covers(items[b.row], b.cell, c)
  }

  // A way up from a cell: continuation cells, each touching the next one up, ending in a restart cell.
  ghost predicate IsChain(items: seq<Node>, chain: seq<Pos>) {
    chain != [] && IsCellAt(items, chain[0]) &&
    if |chain| == 1 then IsRestart(At(items, chain[0]))
    else
      IsCellAt(items, chain[1]) && IsContinuation(At(items, chain[0])) && Touches(items, chain[0], chain[1]) &&
      IsChain(items, chain[1..])
  }

  // Every continuation cell touches at most one cell, as in a table Word itself lays out.
  ghost predicate Aligned(items: seq<Node>) {
    forall a, b, c ::
      (IsCellAt(items, a) && IsContinuation(At(items, a)) && IsCellAt(items, b) && IsCellAt(items, c) &&
       Touches(items, a, b) && Touches(items, a, c)) ==> b == c
  }

  // Cells of one row never overlap.
  lemma {:induction false} ColumnMonotone(row: Node, j: nat, k: nat)
    requires row.Row? && j <= k <= |row.items|
    ensures Column(row, j) <= Column(row, k)
    ensures j < k && row.items[j].Cell? ==> Column(row, j) + GridSpan(row.items[j]) <= Column(row, k)
  {
    if j < k {
      ColumnMonotone(row, j, k - 1);
    }
  }

  lemma CoversUnique(row: Node, j: nat, k: nat, c: nat)
    requires row.Row? && j < |row.items| && k < |row.items| && Covers(row, j, c) && Covers(row, k, c)
    ensures j == k
  {
    if j < k { ColumnMonotone(row, j, k); }
    if k < j { ColumnMonotone(row, k, j); }
  }

  lemma {:induction false} OpenInRowAt(items: seq<Node>, r: nat, k: nat, j: nat, c: nat)
    requires r < |items| && items[r].Row? && j < k <= |items[r].items| && Covers(items[r], j, c)
    ensures OpenInRow(items, r, k, c) == CellMaster(items, r, j)
  {
    if Covers(items[r], k - 1, c) {
      CoversUnique(items[r], j, k - 1, c);
    } else {
      OpenInRowAt(items, r, k - 1, j, c);
    }
  }

  lemma {:induction false} OpenInRowFrom(items: seq<Node>, r: nat, k: nat, c: nat) returns (j: nat)
    requires r < |items| && items[r].Row? && k <= |items[r].items| && OpenInRow(items, r, k, c).Some?
    ensures j < k && Covers(items[r], j, c) && OpenInRow(items, r, k, c) == CellMaster(items, r, j)
  {
    if Covers(items[r], k - 1, c) {
      j := k - 1;
    } else {
      j := OpenInRowFrom(items, r, k - 1, c);
    }
  }

  lemma {:induction false} OpenAtRow(items: seq<Node>, n: nat, r: nat, c: nat)
    requires r < n <= |items| && items[r].Row? && forall i :: r < i < n ==> !items[i].Row?
    ensures OpenAt(items, n, c) == OpenInRow(items, r, |items[r].items|, c)
  {
    if r < n - 1 {
      OpenAtRow(items, n - 1, r, c);
    }
  }

  lemma {:induction false} OpenAtFrom(items: seq<Node>, n: nat, c: nat) returns (r: nat)
    requires n <= |items| && OpenAt(items, n, c).Some?
    ensures r < n && items[r].Row? && forall i :: r < i < n ==> !items[i].Row?
  {
    if items[n - 1].Row? {
      r := n - 1;
    } else {
      r := OpenAtFrom(items, n - 1, c);
    }
  }

  lemma {:induction false} FirstOpenFrom(items: seq<Node>, n: nat, lo: nat, hi: nat) returns (c: nat)
    requires n <= |items| && lo <= hi && FirstOpen(items, n, lo, hi).Some?
    ensures lo <= c < hi && OpenAt(items, n, c) == FirstOpen(items, n, lo, hi)
    ensures forall d: nat :: lo <= d < c ==> OpenAt(items, n, d) == None
    decreases hi - lo
  {
    if OpenAt(items, n, lo).Some? {
      c := lo;
    } else {
      c := FirstOpenFrom(items, n, lo + 1, hi);
    }
  }

  lemma {:induction false} FirstOpenSome(items: seq<Node>, n: nat, lo: nat, hi: nat, c: nat)
    requires n <= |items| && lo <= c < hi && OpenAt(items, n, c).Some?
    ensures FirstOpen(items, n, lo, hi).Some?
    decreases hi - lo
  {
    if lo < c {
      FirstOpenSome(items, n, lo + 1, hi, c);
    }
  }

  // A filled continuation cell takes the master of a cell it touches.
  lemma MasterStep(items: seq<Node>, p: Pos) returns (q: Pos)
    requires IsCellAt(items, p) && IsContinuation(At(items, p)) && CellMaster(items, p.row, p.cell).Some?
    ensures IsCellAt(items, q) && Touches(items, p, q)
    ensures CellMaster(items, p.row, p.cell) == CellMaster(items, q.row, q.cell)
  {
    var lo := Column(items[p.row], p.cell);
    var c := FirstOpenFrom(items, p.row, lo, lo + GridSpan(At(items, p)));
    var r := OpenAtFrom(items, p.row, c);
    OpenAtRow(items, p.row, r, c);
    var j := OpenInRowFrom(items, r, |items[r].items|, c);
    q := Pos(r, j);
    assert Covers(items[p.row], p.cell, c) && Covers(items[q.row], q.cell, c);
  }

  // A master is always found at the top of a chain of touching marked cells.
  lemma {:induction false} MasterTopsChain(items: seq<Node>, p: Pos) returns (chain: seq<Pos>)
    requires IsCellAt(items, p) && CellMaster(items, p.row, p.cell).Some?
    ensures IsChain(items, chain) && chain[0] == p
    ensures CellMaster(items, p.row, p.cell) == Some(chain[|chain| - 1])
    decreases p.row
  {
    if IsRestart(At(items, p)) {
      chain := [p];
    } else {
      var q := MasterStep(items, p);
      var rest := MasterTopsChain(items, q);
      chain := [p] + rest;
      assert chain[1..] == rest;
    }
  }

  // A chain of touching marked cells always gives its lowest cell a master: a continuation cell is left
  // unfilled only if no such chain exists.
  lemma {:induction false} ChainGivesMaster(items: seq<Node>, chain: seq<Pos>)
    requires IsChain(items, chain)
    ensures CellMaster(items, chain[0].row, chain[0].cell).Some?
  {
    if |chain| > 1 {
      ChainGivesMaster(items, chain[1..]);
      TouchedMasterReaches(items, chain[0], chain[1]);
    }
  }

  lemma TouchedMasterReaches(items: seq<Node>, a: Pos, b: Pos)
    requires IsCellAt(items, a) && IsCellAt(items, b) && IsContinuation(At(items, a)) && Touches(items, a, b)
    requires CellMaster(items, b.row, b.cell).Some?
    ensures CellMaster(items, a.row, a.cell).Some?
  {
    var c :| Covers(items[a.row], a.cell, c) && Covers(items[b.row], b.cell, c);
    OpenAtRow(items, a.row, b.row, c);
    OpenInRowAt(items, b.row, |items[b.row].items|, b.cell, c);
    OpenReaches(items, a, c);
  }

  lemma OpenReaches(items: seq<Node>, a: Pos, c: nat)
    requires IsCellAt(items, a) && IsContinuation(At(items, a)) && Covers(items[a.row], a.cell, c)
    requires OpenAt(items, a.row, c).Some?
    ensures CellMaster(items, a.row, a.cell).Some?
  {
    var lo := Column(items[a.row], a.cell);
    FirstOpenSome(items, a.row, lo, lo + GridSpan(At(items, a)), c);
  }

  // In an aligned table the master is the top of any chain, so there is only one way up.
  lemma {:induction false} AlignedChainMaster(items: seq<Node>, chain: seq<Pos>)
    requires IsChain(items, chain) && Aligned(items)
    ensures CellMaster(items, chain[0].row, chain[0].cell) == Some(chain[|chain| - 1])
  {
    if |chain| > 1 {
      AlignedChainMaster(items, chain[1..]);
      ChainGivesMaster(items, chain);
      var q := MasterStep(items, chain[0]);
      assert q == chain[1];
    }
  }
}
