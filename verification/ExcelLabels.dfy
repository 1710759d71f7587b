// Column labels of an Excel sheet (docreader/parser/excel_parser.py).
module ExcelLabels {
  import opened Text

  // A cell value: NaN, a string that calls an image function, or anything else as str() shows it.
  datatype Cell = Missing | ImageCall | Shown(text: string)

  // ---------- Labels ----------

  // get_column_letter for n >= 1: A, ..., Z, AA, ...
  function ColumnLetter(n: nat): string {
    if n == 0 then "" else ColumnLetter((n - 1) / 26) + ['A' + ((n - 1) % 26) as char]
  }

  predicate IsLetters(s: string) {
    forall i :: 0 <= i < |s| ==> 'A' <= s[i] <= 'Z'
  }

  function LettersValue(s: string): nat
    requires IsLetters(s)
  {
    if s == "" then 0 else 26 * LettersValue(s[..|s| - 1]) + (s[|s| - 1] - 'A') as nat + 1
  }

  lemma {:induction false} ColumnLetterValue(n: nat)
    ensures var s := ColumnLetter(n); IsLetters(s) && LettersValue(s) == n && (n > 0 ==> s != "")
  {
    if n > 0 {
      var s := ColumnLetter(n);
      ColumnLetterValue((n - 1) / 26);
      assert s[..|s| - 1] == ColumnLetter((n - 1) / 26);
    }
  }

  // What a column is called before repeated names are numbered.
  function Base(cell: Cell, index: nat): string {
    var name := if cell.Shown? then Strip(cell.text, WHITESPACE) else "";
    if name == "" then ColumnLetter(index + 1) else name
  }

  function Bases(values: seq<Cell>): (r: seq<string>)
    ensures |r| == |values|
  {
    seq(|values|, i requires 0 <= i < |values| => Base(values[i], i))
  }

  function Count(bases: seq<string>, b: string): nat {
    if bases == [] then 0 else Count(bases[..|bases| - 1], b) + if bases[|bases| - 1] == b then 1 else 0
  }

  function Numbered(b: string, n: nat): string {
    b + "_" + Decimal(n)
  }

  // The label of column i: its name, numbered from the second time on.
  function Label(bases: seq<string>, i: nat): string
    requires i < |bases|
  {
    var n := Count(bases[..i + 1], bases[i]);
    if n == 1 then bases[i] else Numbered(bases[i], n)
  }

  // The dictionary of how often each name has been seen.
  ghost predicate Counted(counts: map<string, nat>, bases: seq<string>) {
    forall b :: Count(bases, b) == if b in counts then counts[b] else 0
  }

  lemma CountNext(counts: map<string, nat>, bases: seq<string>, b: string)
    requires Counted(counts, bases)
    ensures var n := (if b in counts then counts[b] else 0) + 1;
      Counted(counts[b := n], bases + [b]) && n == Count(bases + [b], b)
  {
    assert (bases + [b])[..|bases|] == bases;
  }

  lemma BaseNotEmpty(cell: Cell, index: nat)
    ensures Base(cell, index) != ""
  {
    ColumnLetterValue(index + 1);
  }

  predicate Labelled(bases: seq<string>, labels: seq<string>) {
    |labels| <= |bases| && forall i :: 0 <= i < |labels| ==> labels[i] == Label(bases, i) && labels[i] != ""
  }

  lemma LabelledNext(bases: seq<string>, labels: seq<string>, next: string)
    requires Labelled(bases, labels) && |labels| < |bases|
    requires next == Label(bases, |labels|) && bases[|labels|] != ""
    ensures Labelled(bases, labels + [next])
  {
  }

  method StableHeaderLabels(values: seq<Cell>) returns (labels: seq<string>)
    ensures |labels| == |values| && Labelled(Bases(values), labels)
  {
    labels := [];
    var counts: map<string, nat> := map[];
    ghost var bases := Bases(values);
    for index := 0 to |values|
      invariant |labels| == index && Labelled(bases, labels) && Counted(counts, bases[..index])
    {
      var name := "";
      if values[index].Shown? {
        name := Strip(values[index].text, WHITESPACE);
      }
      if name == "" {
        name := ColumnLetter(index + 1);
      }
      BaseNotEmpty(values[index], index);
      assert name == bases[index] && bases[..index + 1] == bases[..index] + [name];
      CountNext(counts, bases[..index], name);
      var count := (if name in counts then counts[name] else 0) + 1;
      counts := counts[name := count];
      var next := if count == 1 then name else Numbered(name, count);
      LabelledNext(bases, labels, next);
      labels := labels + [next];
    }
  }

  // ---------- Distinctness ----------

  // A column already has the name that numbering would give to a repeated one.
  predicate Clash(bases: seq<string>) {
    exists i, n :: 0 <= i < |bases| && 2 <= n <= Count(bases, bases[i]) && Numbered(bases[i], n) in bases
  }

  predicate Distinct(bases: seq<string>) {
    forall i, j :: 0 <= i < j < |bases| ==> Label(bases, i) != Label(bases, j)
  }

  lemma {:induction false} CountGrows(bases: seq<string>, i: nat, j: nat, b: string)
    requires i <= j <= |bases|
    ensures Count(bases[..i], b) <= Count(bases[..j], b)
    decreases j
  {
    if i < j {
      assert bases[..j][..j - 1] == bases[..j - 1];
      CountGrows(bases, i, j - 1, b);
    }
  }

  lemma CountsOccurrence(bases: seq<string>, j: nat)
    requires j < |bases|
    ensures Count(bases[..j + 1], bases[j]) == Count(bases[..j], bases[j]) + 1
  {
    assert bases[..j + 1][..j] == bases[..j];
  }

  // The n-th column of a name exists if there are that many.
  lemma {:induction false} Occurrence(bases: seq<string>, b: string, n: nat) returns (j: nat)
    requires 1 <= n <= Count(bases, b)
    ensures j < |bases| && bases[j] == b && Count(bases[..j + 1], b) == n
    decreases |bases|
  {
    var front := bases[..|bases| - 1];
    if n <= Count(front, b) {
      j := Occurrence(front, b, n);
      assert bases[..j + 1] == front[..j + 1];
    } else {
      j := |bases| - 1;
      assert bases[..j + 1] == bases;
    }
  }

  lemma AfterUnderscore(b: string, n: nat, k: nat)
    requires k < |Numbered(b, n)|
    ensures Numbered(b, n)[|b|] == '_'
    ensures k > |b| ==> IsDigit(Numbered(b, n)[k])
  {
    var d := Decimal(n);
    if k > |b| {
      assert Numbered(b, n)[k] == d[k - |b| - 1];
    }
  }

  // A numbered name determines the name and the number: the number has no underscore.
  lemma NumberedInjective(a: string, m: nat, b: string, n: nat)
    requires Numbered(a, m) == Numbered(b, n)
    ensures a == b && m == n
  {
    var s := Numbered(a, m);
    AfterUnderscore(a, m, |b|);
    AfterUnderscore(b, n, |a|);
    assert |a| == |b|;
    assert s[..|a|] == a && s[..|b|] == b;
    assert s[|a| + 1..] == Decimal(m) && s[|b| + 1..] == Decimal(n);
    DecimalInjective(m, n);
  }

  lemma RepeatedNamesDiffer(bases: seq<string>, i: nat, j: nat)
    requires i < j < |bases| && bases[i] == bases[j]
    ensures Label(bases, i) != Label(bases, j)
  {
    var a := bases[i];
    var m, n := Count(bases[..i + 1], a), Count(bases[..j + 1], a);
    CountsOccurrence(bases, i);
    CountsOccurrence(bases, j);
    CountGrows(bases, i + 1, j, a);
    assert 1 <= m < n && |Numbered(a, n)| > |a|;
    if Numbered(a, m) == Numbered(a, n) {
      NumberedInjective(a, m, a, n);
    }
  }

  lemma SameLabelClashes(bases: seq<string>, i: nat, j: nat)
    requires i < j < |bases| && Label(bases, i) == Label(bases, j)
    ensures Clash(bases)
  {
    var a, b := bases[i], bases[j];
    var m, n := Count(bases[..i + 1], a), Count(bases[..j + 1], b);
    CountsOccurrence(bases, i);
    CountsOccurrence(bases, j);
    assert bases[..|bases|] == bases;
    CountGrows(bases, i + 1, |bases|, a);
    CountGrows(bases, j + 1, |bases|, b);
    if a == b {
      RepeatedNamesDiffer(bases, i, j);
    } else if m == 1 {
      assert Numbered(bases[j], n) in bases;
    } else if n == 1 {
      assert Numbered(bases[i], m) in bases;
    } else {
      NumberedInjective(a, m, b, n);
    }
  }

  lemma ClashRepeatsLabel(bases: seq<string>)
    requires Clash(bases)
    ensures !Distinct(bases)
  {
    var i, n :| 0 <= i < |bases| && 2 <= n <= Count(bases, bases[i]) && Numbered(bases[i], n) in bases;
    var b := bases[i];
    var name := Numbered(b, n);
    var j := Occurrence(bases, b, n);
    var k :| 0 <= k < |bases| && bases[k] == name;
    CountsOccurrence(bases, k);
    CountGrows(bases, k + 1, |bases|, name);
    assert bases[..|bases|] == bases;
    var first := Occurrence(bases, name, 1);
    assert Label(bases, first) == name == Label(bases, j);
    assert |name| > |b|;
    assert first != j;
  }

  // The labels are pairwise distinct exactly if no name numbered from 2 up to its count is itself a column name.
  lemma DistinctIff(bases: seq<string>)
    ensures Distinct(bases) <==> !Clash(bases)
  {
    if Clash(bases) {
      ClashRepeatsLabel(bases);
    } else {
      forall i, j | 0 <= i < j < |bases| ensures Label(bases, i) != Label(bases, j) {
        if Label(bases, i) == Label(bases, j) {
          SameLabelClashes(bases, i, j);
        }
      }
    }
  }

  // A name that ends in an underscore and a number.
  predicate EndsInNumber(b: string) {
    exists k :: 0 <= k < |b| - 1 && b[k] == '_' && forall i :: k < i < |b| ==> IsDigit(b[i])
  }

  lemma NumberedEnds(b: string, n: nat)
    ensures EndsInNumber(Numbered(b, n))
  {
    var s := Numbered(b, n);
    AfterUnderscore(b, n, 0);
    forall i | |b| < i < |s| ensures IsDigit(s[i]) {
      AfterUnderscore(b, n, i);
    }
    assert 0 <= |b| < |s| - 1 && s[|b|] == '_';
  }

  lemma BaseEnds(cell: Cell, index: nat)
    requires EndsInNumber(Base(cell, index))
    ensures cell.Shown? && EndsInNumber(Strip(cell.text, WHITESPACE))
  {
    ColumnLetterValue(index + 1);
  }

  // In particular if no column name of the header row ends in an underscore and a number.
  lemma DistinctUnlessNumbered(values: seq<Cell>)
    requires forall i :: 0 <= i < |values| && values[i].Shown? ==>
                         !EndsInNumber(Strip(values[i].text, WHITESPACE))
    ensures Distinct(Bases(values))
  {
    var bases := Bases(values);
    DistinctIff(bases);
    if Clash(bases) {
      var i, n :| 0 <= i < |bases| && 2 <= n <= Count(bases, bases[i]) && Numbered(bases[i], n) in bases;
      NumberedEnds(bases[i], n);
      var k :| 0 <= k < |bases| && bases[k] == Numbered(bases[i], n);
      BaseEnds(values[k], k);
    }
  }

  // Not every header row has distinct labels.
  lemma RepeatedLabel()
    ensures Label(["A", "A_2", "A"], 1) == "A_2" == Label(["A", "A_2", "A"], 2)
  {
    var bases := ["A", "A_2", "A"];
    assert bases[..1] == ["A"] && bases[..2] == ["A", "A_2"] && bases[..3] == bases;
    assert bases[..2][..1] == ["A"] && bases[..1][..0] == [];
    assert Count(["A"], "A") == 1 && Count(["A"], "A_2") == 0;
    assert Count(["A", "A_2"], "A_2") == 1 && Count(["A", "A_2"], "A") == 1;
    assert Decimal(2) == "2";
  }
}
