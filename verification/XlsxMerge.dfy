// Filling the merged cells of a worksheet (docreader/parser/xlsx_merge.py).
module XlsxMerge {
  import opened Wrappers

  datatype Pos = Pos(row: int, col: int)

  datatype Range = Range(minRow: int, minCol: int, maxRow: int, maxCol: int)

  // Cell values by position; a cell that does not exist has no value.
  type Cells = map<Pos, Option<string>>

  function Get(cells: Cells, p: Pos): Option<string> {
    if p in cells then cells[p] else None
  }

  predicate Covers(m: Range, p: Pos) {
    m.minRow <= p.row <= m.maxRow && m.minCol <= p.col <= m.maxCol
  }

  function TopLeft(m: Range): Pos {
    Pos(m.minRow, m.minCol)
  }

  // The positions of a range.
  function Area(m: Range): (s: set<Pos>)
    ensures forall p :: p in s <==> Covers(m, p)
  {
    set r, c | m.minRow <= r <= m.maxRow && m.minCol <= c <= m.maxCol :: Pos(r, c)
  }

  function SetAll(cells: Cells, area: set<Pos>, value: Option<string>): Cells {
    map p | p in cells.Keys + area :: if p in area then value else cells[p]
  }

  // Every cell of a range set to the value of its top-left cell.
  function FillOne(cells: Cells, m: Range): Cells {
    SetAll(cells, Area(m), Get(cells, TopLeft(m)))
  }

  function FillAll(cells: Cells, ranges: seq<Range>): Cells {
    if ranges == [] then cells else FillOne(FillAll(cells, ranges[..|ranges| - 1]), ranges[|ranges| - 1])
  }

  class Worksheet {
    var cells: Cells
    var merged: seq<Range>

    constructor (values: Cells, ranges: seq<Range>)
      ensures cells == values && merged == ranges
    {
      cells, merged := values, ranges;
    }

    // The two inner loops: one range.
    method FillRange(m: Range)
      modifies this`cells
      ensures cells == FillOne(old(cells), m)
    {
      var masterValue := Get(cells, TopLeft(m));
      ghost var before := cells;
      ghost var done: set<Pos> := {};
      var row := m.minRow;
      while row <= m.maxRow
        invariant m.minRow <= row
        invariant forall p :: p in done <==> Covers(m, p) && p.row < row
        invariant cells == SetAll(before, done, masterValue)
        decreases m.maxRow + 1 - row
      {
        var col := m.minCol;
        while col <= m.maxCol
          invariant m.minCol <= col
          invariant forall p :: p in done <==> Covers(m, p) && (p.row < row || (p.row == row && p.col < col))
          invariant cells == SetAll(before, done, masterValue)
          decreases m.maxCol + 1 - col
        {
          cells := cells[Pos(row, col) := masterValue];
          done := done + {Pos(row, col)};
          col := col + 1;
        }
        row := row + 1;
      }
      assert done == Area(m);
    }

    // The loop over the merged ranges, each unmerged before it is filled.
    method FillMerged() returns (changed: bool)
      modifies this
      ensures cells == FillAll(old(cells), old(merged)) && merged == []
      ensures changed <==> old(merged) != []
    {
      changed := false;
      var ranges := merged;
      for i := 0 to |ranges|
        invariant cells == FillAll(old(cells), ranges[..i])
        invariant merged == ranges[i..] && (changed <==> i > 0)
      {
        merged := merged[1..];
        FillRange(ranges[i]);
        assert ranges[..i + 1][..i] == ranges[..i];
        changed := true;
      }
      assert ranges[..|ranges|] == ranges;
    }
  }

  // ---------- Disjoint ranges ----------

  predicate WellFormed(m: Range) {
    m.minRow <= m.maxRow && m.minCol <= m.maxCol
  }

  predicate Apart(m: Range, n: Range) {
    m.maxRow < n.minRow || n.maxRow < m.minRow || m.maxCol < n.minCol || n.maxCol < m.minCol
  }

  predicate Disjoint(ranges: seq<Range>) {
    && (forall i :: 0 <= i < |ranges| ==> WellFormed(ranges[i]))
    && (forall i, j :: 0 <= i < j < |ranges| ==> Apart(ranges[i], ranges[j]))
  }

  // Whether p is outside all ranges.
  predicate Outside(ranges: seq<Range>, p: Pos) {
    forall i :: 0 <= i < |ranges| ==> !Covers(ranges[i], p)
  }

  lemma {:induction false} OutsideKept(cells: Cells, ranges: seq<Range>, p: Pos)
    requires Outside(ranges, p)
    ensures Get(FillAll(cells, ranges), p) == Get(cells, p)
  {
    if ranges != [] {
      OutsideKept(cells, ranges[..|ranges| - 1], p);
      assert !Covers(ranges[|ranges| - 1], p);
    }
  }

  // A covered cell gets the value its range's top-left cell had at the beginning.
  lemma {:induction false} CoveredFilled(cells: Cells, ranges: seq<Range>, k: nat, p: Pos)
    requires Disjoint(ranges) && k < |ranges| && Covers(ranges[k], p)
    ensures Get(FillAll(cells, ranges), p) == Get(cells, Pos(ranges[k].minRow, ranges[k].minCol))
  {
    var front, last := ranges[..|ranges| - 1], ranges[|ranges| - 1];
    if k == |front| {
      forall i | 0 <= i < |front| ensures !Covers(front[i], TopLeft(last)) {
        assert Apart(ranges[i], ranges[k]);
      }
      OutsideKept(cells, front, TopLeft(last));
    } else {
      CoveredFilled(cells, front, k, p);
      assert Apart(ranges[k], ranges[|front|]);
    }
  }

  lemma {:induction false} FilledKeys(cells: Cells, ranges: seq<Range>, p: Pos)
    ensures p in FillAll(cells, ranges) <==> p in cells || !Outside(ranges, p)
  {
    if ranges != [] {
      var front := ranges[..|ranges| - 1];
      FilledKeys(cells, front, p);
      assert forall i :: 0 <= i < |front| ==> front[i] == ranges[i];
    }
  }

  lemma AnyOrderAt(cells: Cells, a: seq<Range>, b: seq<Range>, p: Pos)
    requires Disjoint(a) && Disjoint(b) && (forall m :: m in a <==> m in b)
    ensures p in FillAll(cells, a) <==> p in FillAll(cells, b)
    ensures Get(FillAll(cells, a), p) == Get(FillAll(cells, b), p)
  {
    FilledKeys(cells, a, p);
    FilledKeys(cells, b, p);
    if Outside(a, p) {
      SameOutside(a, b, p);
      OutsideKept(cells, a, p);
      OutsideKept(cells, b, p);
    } else {
      var i :| 0 <= i < |a| && Covers(a[i], p);
      assert a[i] in b;
      var j :| 0 <= j < |b| && b[j] == a[i];
      CoveredFilled(cells, a, i, p);
      CoveredFilled(cells, b, j, p);
    }
  }

  lemma SameCells(x: Cells, y: Cells)
    requires forall p :: (p in x <==> p in y) && Get(x, p) == Get(y, p)
    ensures x == y
  {
    forall p | p in x ensures p in y && x[p] == y[p] {
      assert Get(x, p) == x[p] && Get(y, p) == y[p];
    }
  }

  // The order in which disjoint ranges are visited does not matter.
  lemma AnyOrder(cells: Cells, a: seq<Range>, b: seq<Range>)
    requires Disjoint(a) && Disjoint(b) && (forall m :: m in a <==> m in b)
    ensures FillAll(cells, a) == FillAll(cells, b)
  {
    var x, y := FillAll(cells, a), FillAll(cells, b);
    forall p ensures (p in x <==> p in y) && Get(x, p) == Get(y, p) {
      AnyOrderAt(cells, a, b, p);
    }
    SameCells(x, y);
  }

  lemma SameOutside(a: seq<Range>, b: seq<Range>, p: Pos)
    requires Outside(a, p) && forall m :: m in b ==> m in a
    ensures Outside(b, p)
  {
    forall i | 0 <= i < |b| ensures !Covers(b[i], p) {
      assert b[i] in a;
    }
  }

  lemma FillOneAt(cells: Cells, m: Range, p: Pos)
    ensures Get(FillOne(cells, m), p) == if Covers(m, p) then Get(cells, TopLeft(m)) else Get(cells, p)
  {
  }

  lemma FillTwo(cells: Cells, a: Range, b: Range)
    ensures FillAll(cells, [a, b]) == FillOne(FillOne(cells, a), b)
  {
    assert [a, b][..1] == [a] && [a][..0] == [];
    assert FillAll(cells, [a]) == FillOne(FillAll(cells, []), a);
  }

  lemma TwoAt(cells: Cells, a: Range, b: Range, p: Pos)
    ensures Get(FillAll(cells, [a, b]), p) ==
      if Covers(b, p) then Get(cells, TopLeft(if Covers(a, TopLeft(b)) then a else b))
      else if Covers(a, p) then Get(cells, TopLeft(a))
      else Get(cells, p)
    ensures p in FillAll(cells, [a, b]) <==> p in cells || Covers(a, p) || Covers(b, p)
  {
    FillTwo(cells, a, b);
    FillOneAt(FillOne(cells, a), b, p);
    FillOneAt(cells, a, p);
    FillOneAt(cells, a, TopLeft(b));
  }

  // A cell that shows the order: in one range only, whose top-left cell the other covers, or in both, neither or
  // each of which covers the other's top-left cell.
  predicate ShowsOrder(a: Range, b: Range, p: Pos) {
    || (Covers(b, p) && !Covers(a, p) && Covers(a, TopLeft(b)))
    || (Covers(a, p) && !Covers(b, p) && Covers(b, TopLeft(a)))
    || (Covers(a, p) && Covers(b, p) && (Covers(a, TopLeft(b)) <==> Covers(b, TopLeft(a))))
  }

  // For any two ranges, overlapping or not, the order matters exactly if their top-left cells differ and some cell
  // shows it.
  lemma OrderMatters(cells: Cells, a: Range, b: Range)
    ensures FillAll(cells, [a, b]) != FillAll(cells, [b, a]) <==>
            Get(cells, TopLeft(a)) != Get(cells, TopLeft(b)) && exists p :: ShowsOrder(a, b, p)
  {
    var x, y := FillAll(cells, [a, b]), FillAll(cells, [b, a]);
    forall p
      ensures p in x <==> p in y
      ensures Get(x, p) != Get(y, p) <==> Get(cells, TopLeft(a)) != Get(cells, TopLeft(b)) && ShowsOrder(a, b, p)
    {
      TwoAt(cells, a, b, p);
      TwoAt(cells, b, a, p);
    }
    if Get(cells, TopLeft(a)) != Get(cells, TopLeft(b)) && exists p :: ShowsOrder(a, b, p) {
      var p :| ShowsOrder(a, b, p);
      assert Get(x, p) != Get(y, p);
    } else {
      forall p ensures (p in x <==> p in y) && Get(x, p) == Get(y, p) {
        assert !(Get(cells, TopLeft(a)) != Get(cells, TopLeft(b)) && ShowsOrder(a, b, p));
      }
      SameCells(x, y);
    }
  }
}
