// The in-place run of docx_merge.py over a whole Word XML part: tables nested in cells, processed in reverse
// document order.
module DocxMerge {
  import opened Wrappers
  import opened DocxTables

  // An element is named by the child indices that lead to it from the root.
  type Path = seq<nat>

  predicate ValidPath(n: Node, path: Path) {
    path == [] || (path[0] < |n.items| && ValidPath(n.items[path[0]], path[1..]))
  }

  function Get(n: Node, path: Path): Node
    requires ValidPath(n, path)
  {
    if path == [] then n else Get(n.items[path[0]], path[1..])
  }

  function SetChild(n: Node, i: nat, child: Node): Node
    requires i < |n.items|
  {
    WithItems(n, n.items[i := child])
  }

  // The tree n with the element at `path` replaced.
  function Put(n: Node, path: Path, v: Node): Node
    requires ValidPath(n, path)
  {
    if path == [] then v else SetChild(n, path[0], Put(n.items[path[0]], path[1..], v))
  }

  predicate IsTableAt(n: Node, path: Path) {
    ValidPath(n, path) && Get(n, path).Table?
  }

  lemma {:induction false} GetPut(n: Node, path: Path, v: Node)
    requires ValidPath(n, path)
    ensures ValidPath(Put(n, path, v), path) && Get(Put(n, path, v), path) == v
  {
    if path != [] {
      GetPut(n.items[path[0]], path[1..], v);
    }
  }

  lemma {:induction false} PutPut(n: Node, path: Path, v: Node, w: Node)
    requires ValidPath(n, path)
    ensures ValidPath(Put(n, path, v), path) && Put(Put(n, path, v), path, w) == Put(n, path, w)
  {
    if path != [] {
      PutPut(n.items[path[0]], path[1..], v, w);
      var i := path[0];
      assert n.items[i := Put(n.items[i], path[1..], v)][i := Put(n.items[i], path[1..], w)] ==
        n.items[i := Put(n.items[i], path[1..], w)];
    }
  }

  lemma {:induction false} PutGet(n: Node, path: Path)
    requires ValidPath(n, path)
    ensures Put(n, path, Get(n, path)) == n
  {
    if path != [] {
      PutGet(n.items[path[0]], path[1..]);
      assert n.items[path[0] := n.items[path[0]]] == n.items;
    }
  }

  lemma {:induction false} GetBelow(n: Node, path: Path, tail: Path)
    requires ValidPath(n, path) && ValidPath(Get(n, path), tail)
    ensures ValidPath(n, path + tail) && Get(n, path + tail) == Get(Get(n, path), tail)
  {
    if path == [] {
      assert path + tail == tail;
    } else {
      GetBelow(n.items[path[0]], path[1..], tail);
      assert (path + tail)[1..] == path[1..] + tail;
    }
  }

  lemma {:induction false} PutBelow(n: Node, path: Path, tail: Path, v: Node)
    requires ValidPath(n, path) && ValidPath(Get(n, path), tail)
    ensures ValidPath(n, path + tail) && Put(n, path + tail, v) == Put(n, path, Put(Get(n, path), tail, v))
  {
    if path == [] {
      assert path + tail == tail;
    } else {
      PutBelow(n.items[path[0]], path[1..], tail, v);
      assert (path + tail)[1..] == path[1..] + tail;
    }
  }

  // ---------- Tables in document order ----------

  function Prefix(i: nat, paths: seq<Path>): seq<Path> {
    seq(|paths|, j requires 0 <= j < |paths| => [i] + paths[j])
  }

  // The paths of all tables below n, in document order: root.xpath(".//w:tbl").
  function TablePaths(n: Node): seq<Path>
    decreases n, 1
  {
    TablePathsFrom(n, 0)
  }

  function TablePathsFrom(n: Node, i: nat): seq<Path>
    requires i <= |n.items|
    decreases n, 0, |n.items| - i
  {
    if i == |n.items| then []
    else Prefix(i, SelfAndTablePaths(n.items[i])) + TablePathsFrom(n, i + 1)
  }

  function SelfAndTablePaths(n: Node): seq<Path>
    decreases n, 2
  {
    (if n.Table? then [[]] else []) + TablePaths(n)
  }

  // ---------- What the run should compute ----------

  // The result of the run on one tree: the new tree, and what each table reported.
  datatype Run = Run(root: Node, changed: bool, filled: nat)

  // Bottom-up recursion: every table below n filled after the tables inside it.
  function BottomUp(n: Node): Node
    decreases n, 0
  {
    WithItems(n, seq(|n.items|, i requires 0 <= i < |n.items| => Finished(n.items[i])))
  }

  function Finished(n: Node): Node
    decreases n, 1
  {
    var inner := BottomUp(n);
    if inner.Table? then FilledTable(inner) else inner
  }

  // Continuation cells with a master, summed over all tables below n, each read from its own grid alone.
  function TotalFills(n: Node): nat
    decreases n, 1
  {
    TotalFillsFrom(n, 0)
  }

  function TotalFillsFrom(n: Node, i: nat): nat
    requires i <= |n.items|
    decreases n, 0, |n.items| - i
  {
    if i == |n.items| then 0 else SelfFills(n.items[i]) + TotalFillsFrom(n, i + 1)
  }

  function SelfFills(n: Node): nat
    decreases n, 2
  {
    TotalFills(n) + if n.Table? then Fills(n.items, |n.items|) else 0
  }

  // Whether a table below n starts a merge.
  predicate AnyRestart(n: Node)
    decreases n, 0
  {
    exists i :: 0 <= i < |n.items| && SelfAnyRestart(n.items[i])
  }

  predicate SelfAnyRestart(n: Node)
    decreases n, 1
  {
    AnyRestart(n) || (n.Table? && HasRestart(n.items, |n.items|))
  }

  // ---------- Reverse document order, step by step ----------

  function FillAt(run: Run, path: Path): Run
  {
    if IsTableAt(run.root, path) then
      var table := Get(run.root, path);
      Run(Put(run.root, path, FilledTable(table)), run.changed || HasRestart(table.items, |table.items|),
        run.filled + Fills(table.items, |table.items|))
    else run
  }

  // The tables of `paths` filled from the last to the first.
  function ReverseRun(run: Run, paths: seq<Path>): Run {
    if paths == [] then run else FillAt(ReverseRun(run, paths[1..]), paths[0])
  }

  lemma {:induction false} ReverseRunAppend(run: Run, a: seq<Path>, b: seq<Path>)
    ensures ReverseRun(run, a + b) == ReverseRun(ReverseRun(run, b), a)
  {
    if a == [] {
      assert a + b == b;
    } else {
      ReverseRunAppend(run, a[1..], b);
      assert (a + b)[1..] == a[1..] + b;
    }
  }

  // Counts and flags accumulate independently of where the run starts from.
  lemma {:induction false} ReverseRunShift(run: Run, paths: seq<Path>)
    ensures ReverseRun(run, paths) ==
      var own := ReverseRun(Run(run.root, false, 0), paths);
      Run(own.root, run.changed || own.changed, run.filled + own.filled)
  {
    if paths != [] {
      ReverseRunShift(run, paths[1..]);
    }
  }

  // A run inside child i touches nothing else.
  lemma {:induction false} ReverseRunInChild(n: Node, i: nat, paths: seq<Path>)
    requires i < |n.items|
    ensures ReverseRun(Run(n, false, 0), Prefix(i, paths)) ==
      var own := ReverseRun(Run(n.items[i], false, 0), paths);
      Run(SetChild(n, i, own.root), own.changed, own.filled)
  {
    if paths == [] {
      assert n.items[i := n.items[i]] == n.items;
    } else {
      ReverseRunInChild(n, i, paths[1..]);
      assert Prefix(i, paths)[1..] == Prefix(i, paths[1..]);
      var own := ReverseRun(Run(n.items[i], false, 0), paths[1..]);
      var path := paths[0];
      var whole := SetChild(n, i, own.root);
      assert whole.items[i] == own.root;
      assert ([i] + path)[1..] == path;
      if IsTableAt(own.root, path) {
        assert n.items[i := own.root][i := Put(own.root, path, FilledTable(Get(own.root, path)))] ==
          n.items[i := Put(own.root, path, FilledTable(Get(own.root, path)))];
      }
    }
  }

  // Reverse document order computes the bottom-up recursion.
  lemma {:induction false} ReverseRunIsBottomUp(n: Node)
    ensures ReverseRun(Run(n, false, 0), TablePaths(n)) == Run(BottomUp(n), AnyRestart(n), TotalFills(n))
    decreases n, 1
  {
    ReverseRunFrom(n, 0);
    assert ReverseRun(Run(n, false, 0), TablePaths(n)).root.items == BottomUp(n).items;
  }

  predicate AnyRestartFrom(n: Node, i: nat)
    requires i <= |n.items|
  {
    exists j :: i <= j < |n.items| && SelfAnyRestart(n.items[j])
  }

  // The tree n with its children from i on finished.
  function PartlyFinished(n: Node, i: nat): Node
    requires i <= |n.items|
  {
    WithItems(n, n.items[..i] + BottomUp(n).items[i..])
  }

  lemma {:induction false} ReverseRunFrom(n: Node, i: nat)
    requires i <= |n.items|
    ensures ReverseRun(Run(n, false, 0), TablePathsFrom(n, i)) ==
      Run(PartlyFinished(n, i), AnyRestartFrom(n, i), TotalFillsFrom(n, i))
    decreases n, 0, |n.items| - i
  {
    if i == |n.items| {
      assert n.items[..i] + BottomUp(n).items[i..] == n.items;
    } else {
      var child := n.items[i];
      var own := SelfAndTablePaths(child);
      ReverseRunFrom(n, i + 1);
      ReverseRunSelf(child);
      ReverseRunAppend(Run(n, false, 0), Prefix(i, own), TablePathsFrom(n, i + 1));
      var rest := Run(PartlyFinished(n, i + 1), AnyRestartFrom(n, i + 1), TotalFillsFrom(n, i + 1));
      assert rest.root.items[i] == child;
      ReverseRunShift(rest, Prefix(i, own));
      ReverseRunInChild(rest.root, i, own);
      FinishChild(n, i);
    }
  }

  lemma FinishChild(n: Node, i: nat)
    requires i < |n.items|
    ensures SetChild(PartlyFinished(n, i + 1), i, Finished(n.items[i])) == PartlyFinished(n, i)
    ensures AnyRestartFrom(n, i + 1) || SelfAnyRestart(n.items[i]) <==> AnyRestartFrom(n, i)
  {
    assert PartlyFinished(n, i + 1).items[i := Finished(n.items[i])] == PartlyFinished(n, i).items;
  }

  lemma {:induction false} ReverseRunSelf(n: Node)
    ensures ReverseRun(Run(n, false, 0), SelfAndTablePaths(n)) == Run(Finished(n), SelfAnyRestart(n), SelfFills(n))
    decreases n, 2
  {
    ReverseRunIsBottomUp(n);
    if n.Table? {
      ReverseRunAppend(Run(n, false, 0), [[]], TablePaths(n));
      var inner := ReverseRun(Run(n, false, 0), TablePaths(n));
      BottomUpKeepsGrid(n);
      SameGridFills(n.items, inner.root.items, |n.items|);
      SameGridHasRestart(n.items, inner.root.items);
      assert ReverseRun(inner, [[]]) == FillAt(inner, []);
    } else {
      assert SelfAndTablePaths(n) == TablePaths(n);
    }
  }

  lemma FinishedKind(n: Node)
    ensures (Finished(n).Row? <==> n.Row?) && (Finished(n).Cell? <==> n.Cell?)
    ensures n.Row? ==> Finished(n) == BottomUp(n) && Finished(n).gridBefore == n.gridBefore
    ensures n.Cell? ==> Finished(n).props == n.props
  {
    assert Finished(n) == if BottomUp(n).Table? then FilledTable(BottomUp(n)) else BottomUp(n);
  }

  // Filling inner tables leaves the grid of the outer one alone.
  lemma BottomUpKeepsGrid(table: Node)
    requires table.Table?
    ensures SameGrid(table.items, BottomUp(table).items)
  {
    var after := BottomUp(table).items;
    forall r | 0 <= r < |table.items| ensures SameShape(table.items[r], after[r]) {
      BottomUpKeepsShape(table.items[r]);
    }
  }

  lemma BottomUpKeepsShape(row: Node)
    ensures SameShape(row, Finished(row))
  {
    FinishedKind(row);
    if row.Row? {
      forall k | 0 <= k < |row.items|
        ensures (row.items[k].Cell? <==> Finished(row).items[k].Cell?) &&
                (row.items[k].Cell? ==> row.items[k].props == Finished(row).items[k].props)
      {
        FinishedKind(row.items[k]);
      }
    }
  }

  // ---------- No restart is left, and a second run does nothing ----------

  lemma AnyRestartReadsItems(a: Node, b: Node)
    requires a.items == b.items
    ensures AnyRestart(a) <==> AnyRestart(b)
  {
  }

  lemma CleanChild(n: Node, i: nat)
    requires !SelfAnyRestart(n) && i < |n.items|
    ensures !SelfAnyRestart(n.items[i])
  {
  }

  // Filling a table whose cells are already clean leaves everything in it clean, copies included.
  lemma FilledTableClean(table: Node)
    requires table.Table? && !AnyRestart(table)
    ensures !SelfAnyRestart(FilledTable(table))
  {
    var items := table.items;
    var filled := FilledTable(table);
    NoRestartAfterFill(table);
    forall r | 0 <= r < |items| ensures !SelfAnyRestart(filled.items[r]) {
      assert !SelfAnyRestart(items[r]);
      if items[r].Row? {
        forall k | 0 <= k < |items[r].items| ensures !SelfAnyRestart(filled.items[r].items[k]) {
          FilledItemClean(items, r, k);
          assert filled.items[r].items[k] == FilledItem(items, r, k);
        }
      }
    }
  }

  lemma FilledItemClean(items: seq<Node>, r: nat, k: nat)
    requires r < |items| && items[r].Row? && k < |items[r].items|
    requires forall i :: 0 <= i < |items| ==> !SelfAnyRestart(items[i])
    ensures !SelfAnyRestart(FilledItem(items, r, k))
  {
    var m := CellMaster(items, r, k);
    CleanChild(items[r], k);
    if m.Some? {
      CleanChild(items[m.value.row], m.value.cell);
      AnyRestartReadsItems(FilledItem(items, r, k), items[m.value.row].items[m.value.cell]);
    }
  }

  // After a run no table at any depth starts a merge.
  lemma {:induction false} NoRestartLeft(n: Node)
    ensures !AnyRestart(BottomUp(n))
    decreases n, 0
  {
    forall i | 0 <= i < |n.items| ensures !SelfAnyRestart(BottomUp(n).items[i]) {
      NoRestartLeftSelf(n.items[i]);
      assert BottomUp(n).items[i] == Finished(n.items[i]);
    }
  }

  lemma {:induction false} NoRestartLeftSelf(n: Node)
    ensures !SelfAnyRestart(Finished(n))
    decreases n, 1
  {
    NoRestartLeft(n);
    if n.Table? {
      FilledTableClean(BottomUp(n));
    }
  }

  // A tree in which no table starts a merge is left alone.
  lemma {:induction false} CleanTreeUnchanged(n: Node)
    requires !AnyRestart(n)
    ensures BottomUp(n) == n && TotalFills(n) == 0
    decreases n, 1
  {
    forall i | 0 <= i < |n.items| ensures Finished(n.items[i]) == n.items[i] && SelfFills(n.items[i]) == 0 {
      CleanSelfUnchanged(n.items[i]);
    }
    assert BottomUp(n).items == n.items;
    NoFillsFrom(n, 0);
  }

  lemma {:induction false} CleanSelfUnchanged(n: Node)
    requires !SelfAnyRestart(n)
    ensures Finished(n) == n && SelfFills(n) == 0
    decreases n, 2
  {
    CleanTreeUnchanged(n);
    if n.Table? {
      NoRestartNoMaster(n.items);
    }
  }

  lemma {:induction false} NoFillsFrom(n: Node, i: nat)
    requires i <= |n.items|
    requires forall j :: 0 <= j < |n.items| ==> SelfFills(n.items[j]) == 0
    ensures TotalFillsFrom(n, i) == 0
    decreases |n.items| - i
  {
    if i < |n.items| {
      NoFillsFrom(n, i + 1);
    }
  }

  // Running twice is running once: the second run changes nothing and reports (false, 0).
  lemma SecondRunDoesNothing(n: Node)
    ensures ReverseRun(Run(BottomUp(n), false, 0), TablePaths(BottomUp(n))) == Run(BottomUp(n), false, 0)
  {
    NoRestartLeft(n);
    CleanTreeUnchanged(BottomUp(n));
    ReverseRunIsBottomUp(BottomUp(n));
  }

  // ---------- The listed elements stay in place during the run ----------

  lemma {:induction false} TablePathsValid(n: Node, i: nat)
    requires i <= |n.items|
    ensures forall p :: p in TablePathsFrom(n, i) ==> p != [] && p[0] >= i && IsTableAt(n, p)
    decreases n, 0, |n.items| - i
  {
    if i < |n.items| {
      TablePathsValid(n, i + 1);
      SelfPathsValid(n.items[i]);
      var own := SelfAndTablePaths(n.items[i]);
      forall p | p in Prefix(i, own) ensures p != [] && p[0] >= i && IsTableAt(n, p) {
        var j :| 0 <= j < |own| && p == [i] + own[j];
        assert own[j] in own;
        assert p[1..] == own[j];
      }
    }
  }

  lemma {:induction false} SelfPathsValid(n: Node)
    ensures forall p :: p in SelfAndTablePaths(n) ==> IsTableAt(n, p)
    decreases n, 1
  {
    TablePathsValid(n, 0);
    var own := SelfAndTablePaths(n);
    var below := TablePaths(n);
    assert below == TablePathsFrom(n, 0);
    forall p | p in own ensures IsTableAt(n, p) {
      assert own == if n.Table? then [[]] + below else [] + below;
      if p !in below {
        assert p in [[]];
      }
    }
  }

  // Later tables in document order are never ancestors of earlier ones.
  ghost predicate Ordered(ps: seq<Path>) {
    forall a, b :: 0 <= a < b < |ps| ==> !(ps[b] <= ps[a])
  }

  lemma {:induction false} TablePathsOrdered(n: Node, i: nat)
    requires i <= |n.items|
    ensures Ordered(TablePathsFrom(n, i))
    decreases n, 0, |n.items| - i
  {
    if i < |n.items| {
      var own := SelfAndTablePaths(n.items[i]);
      var rest := TablePathsFrom(n, i + 1);
      var ps := TablePathsFrom(n, i);
      TablePathsOrdered(n, i + 1);
      SelfPathsOrdered(n.items[i]);
      TablePathsValid(n, i + 1);
      forall a, b | 0 <= a < b < |ps| ensures !(ps[b] <= ps[a]) {
        if b < |own| {
          assert ps[a][1..] == own[a] && ps[b][1..] == own[b];
        } else {
          assert ps[b] == rest[b - |own|] && ps[b] in rest;
          if a < |own| {
            assert ps[a][0] == i;
          } else {
            assert ps[a] == rest[a - |own|];
          }
        }
      }
    }
  }

  lemma {:induction false} SelfPathsOrdered(n: Node)
    ensures Ordered(SelfAndTablePaths(n))
    decreases n, 1
  {
    TablePathsOrdered(n, 0);
    TablePathsValid(n, 0);
    var ps := TablePaths(n);
    var own := SelfAndTablePaths(n);
    if n.Table? {
      forall a, b | 0 <= a < b < |own| ensures !(own[b] <= own[a]) {
        assert own[b] == ps[b - 1] && ps[b - 1] in ps;
        assert a > 0 ==> own[a] == ps[a - 1];
      }
    } else {
      assert own == ps;
    }
  }

  // Rewriting one element leaves every table that is not inside it a table at the same place.
  lemma {:induction false} PutKeepsTable(n: Node, q: Path, v: Node, p: Path)
    requires ValidPath(n, q) && IsTableAt(n, p) && !(q <= p)
    ensures IsTableAt(Put(n, q, v), p)
  {
    if p != [] && p[0] == q[0] {
      assert q[1..] <= p[1..] ==> q <= p;
      PutKeepsTable(n.items[p[0]], q[1..], v, p[1..]);
    }
  }

  // ---------- The program ----------

  function Content(items: seq<Node>, m: Pos): seq<Node>
    requires m.row < |items| && m.cell < |items[m.row].items|
  {
    items[m.row].items[m.cell].items
  }

  // `open` holds, for each grid column with a merge open below the first n items, the content to repeat.
  ghost predicate HoldsOpen(items: seq<Node>, n: nat, open: map<nat, seq<Node>>)
    requires n <= |items|
  {
    forall c: nat ::
      (c in open <==> OpenAt(items, n, c).Some?) &&
      (c in open ==> open[c] == Content(items, OpenAt(items, n, c).value))
  }

  ghost predicate HoldsOpenInRow(items: seq<Node>, r: nat, k: nat, open: map<nat, seq<Node>>)
    requires r < |items| && items[r].Row? && k <= |items[r].items|
  {
    forall c: nat ::
      (c in open <==> OpenInRow(items, r, k, c).Some?) &&
      (c in open ==> open[c] == Content(items, OpenInRow(items, r, k, c).value))
  }

  // The table while row r is being worked on, its first k items done.
  ghost function Working(items: seq<Node>, r: nat, k: nat): Node
    requires r < |items| && items[r].Row? && k <= |items[r].items|
  {
    Table(FilledRows(items, r)[r := FilledRow(items, r, k)])
  }

  function FirstActive(active: map<nat, seq<Node>>, lo: nat, hi: nat): Option<seq<Node>>
    requires lo <= hi
    decreases hi - lo
  {
    if lo == hi then None
    else if lo in active then Some(active[lo])
    else FirstActive(active, lo + 1, hi)
  }

  lemma {:induction false} FirstActiveIsFirstOpen(items: seq<Node>, n: nat, active: map<nat, seq<Node>>, lo: nat,
      hi: nat)
    requires n <= |items| && lo <= hi && HoldsOpen(items, n, active)
    ensures FirstActive(active, lo, hi) == MasterContent(items, FirstOpen(items, n, lo, hi))
    decreases hi - lo
  {
    if lo < hi {
      FirstActiveIsFirstOpen(items, n, active, lo + 1, hi);
    }
  }

  method SetColumns(columns: map<nat, seq<Node>>, lo: nat, hi: nat, template: seq<Node>)
    returns (r: map<nat, seq<Node>>)
    requires lo <= hi
    ensures forall c :: c in r <==> c in columns || lo <= c < hi
    ensures forall c :: c in r ==> r[c] == if lo <= c < hi then template else columns[c]
  {
    r := columns;
    for c := lo to hi
      invariant forall d :: d in r <==> d in columns || lo <= d < c
      invariant forall d :: d in r ==> r[d] == if lo <= d < c then template else columns[d]
    {
      r := r[c := template];
    }
  }

  lemma TwoSteps(n: Node, i: nat, j: nat, v: Node)
    requires i < |n.items| && j < |n.items[i].items|
    ensures ValidPath(n, [i, j]) && Get(n, [i, j]) == n.items[i].items[j]
    ensures Put(n, [i, j], v) == SetChild(n, i, SetChild(n.items[i], j, v))
  {
    var path: Path := [i, j];
    var last: Path := [j];
    var child := n.items[i];
    assert path[1..] == last && last[1..] == [];
    assert last[0] == j;
    assert ValidPath(child.items[j], last[1..]);
    assert Get(child.items[j], last[1..]) == child.items[j];
    assert ValidPath(child, last) && Get(child, last) == Get(child.items[j], []);
    assert Put(child, last, v) == SetChild(child, j, Put(child.items[j], [], v));
  }

  // Writing item k of row r through its path moves the working table one item on.
  lemma EditItem(root: Node, path: Path, items: seq<Node>, r: nat, k: nat, item: Node)
    requires ValidPath(root, path) && r < |items| && items[r].Row? && k < |items[r].items|
    requires item == FilledItem(items, r, k)
    ensures var now := Put(root, path, Working(items, r, k));
      && ValidPath(now, path + [r, k])
      && Get(now, path + [r, k]) == items[r].items[k]
      && Put(now, path + [r, k], item) == Put(root, path, Working(items, r, k + 1))
  {
    var table := Working(items, r, k);
    var now := Put(root, path, table);
    var tail: Path := [r, k];
    GetPut(root, path, table);
    TwoSteps(table, r, k, item);
    GetBelow(now, path, tail);
    PutBelow(now, path, tail, item);
    PutPut(root, path, table, Put(table, tail, item));
    assert FilledRow(items, r, k).items[k := item] == FilledRow(items, r, k + 1).items;
    assert table.items[r := FilledRow(items, r, k + 1)] == Working(items, r, k + 1).items;
  }

  lemma KeepItem(items: seq<Node>, r: nat, k: nat)
    requires r < |items| && items[r].Row? && k < |items[r].items|
    requires CellMaster(items, r, k) == None
    ensures Working(items, r, k + 1) == Working(items, r, k)
  {
    assert FilledRow(items, r, k + 1).items == FilledRow(items, r, k).items;
  }

  lemma StartRow(items: seq<Node>, r: nat)
    requires r < |items|
    ensures FilledRows(items, r)[r] == items[r]
    ensures items[r].Row? ==> Working(items, r, 0) == Table(FilledRows(items, r))
    ensures items[r].Row? ==> Working(items, r, |items[r].items|) == Table(FilledRows(items, r + 1))
    ensures !items[r].Row? ==> FilledRows(items, r + 1) == FilledRows(items, r)
  {
    if items[r].Row? {
      assert FilledRow(items, r, 0).items == items[r].items;
    }
  }

  // The content a marked cell spreads: its own for a restart cell, the first active one for a continuation.
  function Template(cell: Node, column: nat, active: map<nat, seq<Node>>): Option<seq<Node>>
    requires cell.Cell?
  {
    if IsRestart(cell) then Some(cell.items)
    else if IsContinuation(cell) then FirstActive(active, column, column + GridSpan(cell))
    else None
  }

  function MasterContent(items: seq<Node>, m: Option<Pos>): Option<seq<Node>>
    requires m.Some? ==> m.value.row < |items| && m.value.cell < |items[m.value.row].items|
  {
    match m { case None => None case Some(p) => Some(Content(items, p)) }
  }

  lemma TemplateIsMaster(items: seq<Node>, r: nat, k: nat, active: map<nat, seq<Node>>)
    requires r < |items| && items[r].Row? && k < |items[r].items| && items[r].items[k].Cell?
    requires HoldsOpen(items, r, active)
    ensures Template(items[r].items[k], Column(items[r], k), active) == MasterContent(items, CellMaster(items, r, k))
  {
    var cell := items[r].items[k];
    var lo := Column(items[r], k);
    var hi := lo + GridSpan(cell);
    MasterByKind(items, r, k, lo, hi);
    if IsContinuation(cell) {
      FirstActiveIsFirstOpen(items, r, active, lo, hi);
    }
  }

  lemma MasterByKind(items: seq<Node>, r: nat, k: nat, lo: nat, hi: nat)
    requires r < |items| && items[r].Row? && k < |items[r].items| && items[r].items[k].Cell?
    requires lo == Column(items[r], k) && hi == lo + GridSpan(items[r].items[k])
    ensures IsRestart(items[r].items[k]) ==> CellMaster(items, r, k) == Some(Pos(r, k))
    ensures IsContinuation(items[r].items[k]) ==> CellMaster(items, r, k) == FirstOpen(items, r, lo, hi)
    ensures !HasMarker(items[r].items[k]) ==> CellMaster(items, r, k) == None
  {
  }

  // Item k of the row done, the columns it covers in `next` follow its master.
  lemma OpenMoves(items: seq<Node>, r: nat, k: nat, next: map<nat, seq<Node>>, template: Option<seq<Node>>,
      nextAfter: map<nat, seq<Node>>)
    requires r < |items| && items[r].Row? && k < |items[r].items|
    requires HoldsOpenInRow(items, r, k, next)
    requires template == MasterContent(items, CellMaster(items, r, k))
    requires template.None? ==> nextAfter == next
    requires template.Some? ==> forall c: nat :: c in nextAfter <==> c in next || Covers(items[r], k, c)
    requires template.Some? ==> forall c :: c in nextAfter ==>
      nextAfter[c] == if Covers(items[r], k, c) then template.value else next[c]
    ensures HoldsOpenInRow(items, r, k + 1, nextAfter)
  {
    forall c: nat
      ensures (c in nextAfter <==> OpenInRow(items, r, k + 1, c).Some?) &&
              (c in nextAfter ==> nextAfter[c] == Content(items, OpenInRow(items, r, k + 1, c).value))
    {
      if Covers(items[r], k, c) && c in next {
        var j := OpenInRowFrom(items, r, k, c);
        CoversUnique(items[r], j, k, c);
      }
    }
  }

  ghost predicate RestartIn(row: Node, k: nat)
    requires k <= |row.items|
  {
    exists j :: 0 <= j < k && IsRestart(row.items[j])
  }

  // The loop variables of a row after its first k items.
  ghost predicate RowState(items: seq<Node>, r: nat, k: nat, column: nat, next: map<nat, seq<Node>>, changed: bool,
      filled: nat)
    requires r < |items| && items[r].Row? && k <= |items[r].items|
  {
    && column == Column(items[r], k)
    && HoldsOpenInRow(items, r, k, next)
    && (HasRestart(items, r) || changed == RestartIn(items[r], k))
    && filled == FillsInRow(items, r, k)
  }

  lemma RowStep(items: seq<Node>, r: nat, k: nat, column: nat, next: map<nat, seq<Node>>, changed: bool, filled: nat,
      template: Option<seq<Node>>, columnAfter: nat, nextAfter: map<nat, seq<Node>>, changedAfter: bool,
      filledAfter: nat)
    requires r < |items| && items[r].Row? && k < |items[r].items|
    requires RowState(items, r, k, column, next, changed, filled)
    requires template == MasterContent(items, CellMaster(items, r, k))
    requires template.None? ==> nextAfter == next
    requires template.Some? ==> items[r].items[k].Cell?
    requires template.Some? ==> forall c :: c in nextAfter <==> c in next || Covers(items[r], k, c)
    requires template.Some? ==> forall c :: c in nextAfter ==>
      nextAfter[c] == if Covers(items[r], k, c) then template.value else next[c]
    requires columnAfter == if items[r].items[k].Cell? then column + GridSpan(items[r].items[k]) else column
    requires changedAfter == (changed || template.Some?)
    requires filledAfter == if template.Some? && IsContinuation(items[r].items[k]) then filled + 1 else filled
    ensures RowState(items, r, k + 1, columnAfter, nextAfter, changedAfter, filledAfter)
  {
    OpenMoves(items, r, k, next, template, nextAfter);
    RowStepCounts(items, r, k);
  }

  lemma RowStart(items: seq<Node>, r: nat)
    requires r < |items| && items[r].Row?
    ensures RowState(items, r, 0, PositiveInt(items[r].gridBefore, 0), map[], false, 0)
  {
  }

  lemma RowDone(items: seq<Node>, r: nat, column: nat, next: map<nat, seq<Node>>, changed: bool, filled: nat)
    requires r < |items| && items[r].Row?
    requires RowState(items, r, |items[r].items|, column, next, changed, filled)
    ensures HoldsOpen(items, r + 1, next)
    ensures HasRestart(items, r + 1) == (HasRestart(items, r) || changed)
    ensures filled == FillsInRow(items, r, |items[r].items|)
  {
  }

  lemma FilledItemIs(items: seq<Node>, r: nat, k: nat, template: Option<seq<Node>>)
    requires r < |items| && items[r].Row? && k < |items[r].items|
    requires template == MasterContent(items, CellMaster(items, r, k))
    ensures template.None? ==> CellMaster(items, r, k) == None
    ensures !items[r].items[k].Cell? ==> template == None
    ensures template.Some? ==> HasMarker(items[r].items[k])
    ensures template.Some? ==> FilledItem(items, r, k) == ClearMarker(WithItems(items[r].items[k], template.value))
  {
  }

  // What one more item adds to the columns, the count and the flag of its row.
  lemma RowStepCounts(items: seq<Node>, r: nat, k: nat)
    requires r < |items| && items[r].Row? && k < |items[r].items|
    ensures Column(items[r], k + 1) ==
      if items[r].items[k].Cell? then Column(items[r], k) + GridSpan(items[r].items[k]) else Column(items[r], k)
    ensures FillsInRow(items, r, k + 1) ==
      if CellMaster(items, r, k).Some? && IsContinuation(items[r].items[k]) then FillsInRow(items, r, k) + 1
      else FillsInRow(items, r, k)
    ensures RestartIn(items[r], k + 1) <==> RestartIn(items[r], k) || IsRestart(items[r].items[k])
    ensures IsRestart(items[r].items[k]) ==> CellMaster(items, r, k).Some?
    ensures CellMaster(items, r, k).Some? && !IsRestart(items[r].items[k]) ==> HasRestart(items, r)
  {
  }

  class Document {
    var root: Node

    constructor (root: Node)
      ensures this.root == root
    {
      this.root := root;
    }

    // _fill_table_vertical_merges: one table, its cells edited in place.
    method FillTable(path: Path) returns (changed: bool, filled: nat)
      requires IsTableAt(root, path)
      modifies this
      ensures root == Put(old(root), path, FilledTable(Get(old(root), path)))
      ensures changed == HasRestart(Get(old(root), path).items, |Get(old(root), path).items|)
      ensures filled == Fills(Get(old(root), path).items, |Get(old(root), path).items|)
    {
      var items := Get(root, path).items;
      var active: map<nat, seq<Node>> := map[];
      changed, filled := false, 0;
      PutGet(root, path);
      assert FilledRows(items, 0) == items;
      for r := 0 to |items|
        invariant root == Put(old(root), path, Table(FilledRows(items, r)))
        invariant HoldsOpen(items, r, active)
        invariant changed == HasRestart(items, r)
        invariant filled == Fills(items, r)
      {
        StartRow(items, r);
        var row := items[r];
        if row.Row? {
          var next;
          var rowChanged, rowFilled;
          rowChanged, rowFilled, next := FillRow(path, items, r, active, old(root));
          changed := changed || rowChanged;
          filled := filled + rowFilled;
          active := next;
        }
      }
    }

    // The body of the row loop.
    method FillRow(path: Path, items: seq<Node>, r: nat, active: map<nat, seq<Node>>, ghost start: Node)
      returns (changed: bool, filled: nat, next: map<nat, seq<Node>>)
      requires r < |items| && items[r].Row? && ValidPath(start, path)
      requires root == Put(start, path, Working(items, r, 0))
      requires HoldsOpen(items, r, active)
      modifies this
      ensures root == Put(start, path, Working(items, r, |items[r].items|))
      ensures HoldsOpen(items, r + 1, next)
      ensures HasRestart(items, r + 1) == (HasRestart(items, r) || changed)
      ensures filled == FillsInRow(items, r, |items[r].items|)
    {
      next := map[];
      changed, filled := false, 0;
      var column: nat := PositiveInt(items[r].gridBefore, 0);
      RowStart(items, r);
      for k := 0 to |items[r].items|
        invariant root == Put(start, path, Working(items, r, k))
        invariant RowState(items, r, k, column, next, changed, filled)
      {
        column, next, changed, filled := FillItem(path, items, r, k, active, column, next, changed, filled, start);
      }
      RowDone(items, r, column, next, changed, filled);
    }

    // The body of the cell loop.
    method FillItem(path: Path, items: seq<Node>, r: nat, k: nat, active: map<nat, seq<Node>>,
        column: nat, next: map<nat, seq<Node>>, changed: bool, filled: nat, ghost start: Node)
      returns (columnAfter: nat, nextAfter: map<nat, seq<Node>>, changedAfter: bool, filledAfter: nat)
      requires r < |items| && items[r].Row? && k < |items[r].items| && ValidPath(start, path)
      requires root == Put(start, path, Working(items, r, k))
      requires HoldsOpen(items, r, active) && RowState(items, r, k, column, next, changed, filled)
      modifies this
      ensures root == Put(start, path, Working(items, r, k + 1))
      ensures RowState(items, r, k + 1, columnAfter, nextAfter, changedAfter, filledAfter)
    {
      EditItem(start, path, items, r, k, FilledItem(items, r, k));
      var cell := Get(root, path + [r, k]);
      columnAfter, nextAfter, changedAfter, filledAfter := column, next, changed, filled;
      var template := None;
      if cell.Cell? {
        TemplateIsMaster(items, r, k, active);
      }
      FilledItemIs(items, r, k, MasterContent(items, CellMaster(items, r, k)));
      if cell.Cell? {
        template, nextAfter := FillCell(path + [r, k], column, active, next);
        columnAfter := column + GridSpan(cell);
        if template.Some? {
          changedAfter := true;
          if IsContinuation(cell) {
            filledAfter := filled + 1;
          }
        }
      }
      if template.None? {
        KeepItem(items, r, k);
      }
      RowStep(items, r, k, column, next, changed, filled, template, columnAfter, nextAfter, changedAfter, filledAfter);
    }

    // One cell: its marker cleared and, in a continuation cell, its content replaced by the template.
    method FillCell(cellPath: Path, column: nat, active: map<nat, seq<Node>>, open: map<nat, seq<Node>>)
      returns (template: Option<seq<Node>>, next: map<nat, seq<Node>>)
      requires ValidPath(root, cellPath) && Get(root, cellPath).Cell?
      modifies this
      ensures template == Template(Get(old(root), cellPath), column, active)
      ensures root ==
        if template.None? then old(root)
        else Put(old(root), cellPath, ClearMarker(WithItems(Get(old(root), cellPath), template.value)))
      ensures template.None? ==> next == open
      ensures template.Some? ==>
        (forall c :: c in next <==> c in open || column <= c < column + GridSpan(Get(old(root), cellPath))) &&
        (forall c :: c in next ==>
          next[c] == if column <= c < column + GridSpan(Get(old(root), cellPath)) then template.value else open[c])
    {
      var cell := Get(root, cellPath);
      var span := GridSpan(cell);
      template, next := None, open;
      if HasMarker(cell) {
        if IsRestart(cell) {
          template := Some(cell.items);
          next := SetColumns(next, column, column + span, cell.items);
          root := Put(root, cellPath, ClearMarker(cell));
        } else {
          template := FirstActive(active, column, column + span);
          if template.Some? {
            cell := WithItems(cell, []);
            cell := WithItems(cell, template.value);
            next := SetColumns(next, column, column + span, template.value);
            root := Put(root, cellPath, ClearMarker(cell));
          }
        }
      }
    }

    // The loop over all tables of the part, last in document order first.
    method FillAll() returns (changed: bool, filled: nat)
      modifies this
      ensures root == BottomUp(old(root))
      ensures changed == AnyRestart(old(root)) && filled == TotalFills(old(root))
    {
      var tables := TablePaths(root);
      changed, filled := false, 0;
      TablePathsValid(root, 0);
      TablePathsOrdered(root, 0);
      var i := |tables|;
      while i > 0
        invariant 0 <= i <= |tables|
        invariant Run(root, changed, filled) == ReverseRun(Run(old(root), false, 0), tables[i..])
        invariant forall j :: 0 <= j < i ==> IsTableAt(root, tables[j])
      {
        i := i - 1;
        assert tables[i..][1..] == tables[i + 1..];
        ghost var before := root;
        var tableChanged, tableFilled := FillTable(tables[i]);
        changed := changed || tableChanged;
        filled := filled + tableFilled;
        forall j | 0 <= j < i ensures IsTableAt(root, tables[j]) {
          PutKeepsTable(before, tables[i], FilledTable(Get(before, tables[i])), tables[j]);
        }
      }
      assert tables[0..] == tables;
      ReverseRunIsBottomUp(old(root));
    }
  }

  // _fill_vertical_merges_in_xml: None stands for a part that is not well-formed XML, and for a part that needs
  // no rewriting.
  method FillVerticalMergesInXml(data: Option<Node>) returns (rewritten: Option<Node>, filled: nat)
    ensures rewritten ==
      if data.Some? && AnyRestart(data.value) then Some(BottomUp(data.value)) else None
    ensures filled == if data.Some? then TotalFills(data.value) else 0
  {
    if data.None? {
      return None, 0;
    }
    var document := new Document(data.value);
    var changed;
    changed, filled := document.FillAll();
    if !changed {
      CleanTreeUnchanged(data.value);
      return None, 0;
    }
    return Some(document.root), filled;
  }
}
