// Splitting a Word document into pages (docx_parser.py).
module DocxPages {
  import opened Wrappers

  // A paragraph: whether it ends a page, its raw text, and the picture taken from it, if any.
  datatype Paragraph = Paragraph(breaks: bool, text: string, image: Option<nat>)

  // ---------- Page numbers ----------

  function Breaks(paras: seq<Paragraph>, n: nat): nat
    requires n <= |paras|
  {
    if n == 0 then 0 else Breaks(paras, n - 1) + if paras[n - 1].breaks then 1 else 0
  }

  function BreaksBefore(paras: seq<Paragraph>, n: nat): set<nat>
    requires n <= |paras|
  {
    set j: nat | j < n && paras[j].breaks
  }

  // The page of a paragraph is the number of paragraphs with a page break before it; in a document of more than 1000
  // paragraphs it is one page for each 25 of them.
  lemma PageNumberIs(paras: seq<Paragraph>, i: nat)
    requires i < |paras|
    ensures PageNumbers(paras)[i] == if |paras| > 1000 then i / 25 else |BreaksBefore(paras, i)|
  {
    BreaksCount(paras, i);
  }

  lemma {:induction false} BreaksCount(paras: seq<Paragraph>, n: nat)
    requires n <= |paras|
    ensures Breaks(paras, n) == |BreaksBefore(paras, n)|
  {
    if n > 0 {
      BreaksCount(paras, n - 1);
      assert BreaksBefore(paras, n) == BreaksBefore(paras, n - 1) + if paras[n - 1].breaks then {n - 1} else {};
    }
  }

  lemma {:induction false} BreaksMonotone(paras: seq<Paragraph>, i: nat, j: nat)
    requires i <= j <= |paras|
    ensures Breaks(paras, i) <= Breaks(paras, j)
  {
    if i < j {
      BreaksMonotone(paras, i, j - 1);
    }
  }

  // The page of each paragraph: the page breaks before it, or an estimate in a long document.
  function PageNumbers(paras: seq<Paragraph>): (pages: seq<nat>)
    ensures |pages| == |paras|
  {
    seq(|paras|, i requires 0 <= i < |paras| =>
      if |paras| > 1000 then i / 25 else Breaks(paras, i))
  }

  // Page numbers start at 0 and never fall.
  ghost predicate ArePageNumbers(pages: seq<nat>) {
    (pages != [] ==> pages[0] == 0) && forall i, j :: 0 <= i <= j < |pages| ==> pages[i] <= pages[j]
  }

  lemma PageNumbersAscend(paras: seq<Paragraph>)
    ensures ArePageNumbers(PageNumbers(paras))
  {
    var pages := PageNumbers(paras);
    forall i, j | 0 <= i <= j < |paras| ensures pages[i] <= pages[j] {
      BreaksMonotone(paras, i, j);
    }
  }

  // Of the first n paragraphs, the indices of those on page p.
  function OnPage(pages: seq<nat>, p: nat, n: nat): seq<nat>
    requires n <= |pages|
  {
    if n == 0 then []
    else if pages[n - 1] == p then OnPage(pages, p, n - 1) + [n - 1]
    else OnPage(pages, p, n - 1)
  }

  // Of the first n paragraphs, how many are on pages before p.
  function CountBefore(pages: seq<nat>, p: nat, n: nat): (r: nat)
    requires n <= |pages|
    ensures r <= n
  {
    if n == 0 then 0
    else if pages[n - 1] < p then CountBefore(pages, p, n - 1) + 1
    else CountBefore(pages, p, n - 1)
  }

  function Range(lo: nat, hi: nat): seq<nat>
    requires lo <= hi
  {
    seq(hi - lo, i requires 0 <= i < hi - lo => lo + i)
  }

  lemma RangeJoin(lo: nat, mid: nat, hi: nat)
    requires lo <= mid <= hi
    ensures Range(lo, mid) + Range(mid, hi) == Range(lo, hi)
  {
  }

  // Paragraphs before one on an earlier page are on earlier pages too.
  lemma {:induction false} AllBefore(pages: seq<nat>, p: nat, n: nat)
    requires n < |pages| && ArePageNumbers(pages) && pages[n] < p
    ensures CountBefore(pages, p, n) == n
    decreases n
  {
    if n > 0 {
      AllBefore(pages, p, n - 1);
    }
  }

  // A page is a run of consecutive paragraphs, from where the pages before it end.
  lemma {:induction false} PageIsRun(pages: seq<nat>, p: nat, n: nat)
    requires n <= |pages| && ArePageNumbers(pages)
    ensures CountBefore(pages, p, n) <= CountBefore(pages, p + 1, n)
    ensures OnPage(pages, p, n) == Range(CountBefore(pages, p, n), CountBefore(pages, p + 1, n))
  {
    if n > 0 {
      PageIsRun(pages, p, n - 1);
      if pages[n - 1] < p {
        AllBefore(pages, p, n - 1);
        AllBefore(pages, p + 1, n - 1);
      } else if pages[n - 1] == p {
        AllBefore(pages, p + 1, n - 1);
      }
    }
  }

  lemma {:induction false} NoLaterOnPage(pages: seq<nat>, p: nat, n: nat, m: nat)
    requires n <= m <= |pages|
    requires forall i :: n <= i < m ==> pages[i] != p
    ensures OnPage(pages, p, m) == OnPage(pages, p, n)
  {
    if n < m {
      NoLaterOnPage(pages, p, n, m - 1);
    }
  }

  lemma {:induction false} OnPageMember(pages: seq<nat>, p: nat, n: nat, i: nat)
    requires i < n <= |pages| && pages[i] == p
    ensures OnPage(pages, p, n) != []
  {
    if i < n - 1 {
      OnPageMember(pages, p, n - 1, i);
    }
  }

  // ---------- The mapping ----------

  type PageMap = map<nat, seq<nat>>

  // What the mapping promises for every page up to the limit: it lists exactly the page's paragraphs, in order,
  // and no page without paragraphs, except page 0 of an empty document.
  ghost predicate IsPageMap(pages: seq<nat>, maxPage: int, m: PageMap) {
    (forall p :: p in m && p <= maxPage ==> m[p] == OnPage(pages, p, |pages|)) &&
    (forall i :: 0 <= i < |pages| && pages[i] <= maxPage ==> pages[i] in m) &&
    (forall p :: p in m && p <= maxPage && pages != [] ==> p in pages)
  }

  // m lists what the first n paragraphs put on each page it has, and has every page they touch.
  ghost predicate Lists(pages: seq<nat>, m: PageMap, n: nat)
    requires n <= |pages|
  {
    (forall p :: p in m ==> m[p] == OnPage(pages, p, n)) &&
    forall i :: 0 <= i < n ==> pages[i] in m
  }

  lemma AppendParagraph(pages: seq<nat>, m: PageMap, n: nat)
    requires n < |pages| && Lists(pages, m, n) && pages[n] in m
    ensures Lists(pages, m[pages[n] := m[pages[n]] + [n]], n + 1)
  {
  }

  lemma NewPage(pages: seq<nat>, m: PageMap, n: nat, p: nat)
    requires n <= |pages| && Lists(pages, m, n) && p !in m
    ensures Lists(pages, m[p := []], n)
  {
    NoLaterOnPage(pages, p, 0, n);
  }

  lemma PlaceParagraph(pages: seq<nat>, m: PageMap, n: nat)
    requires n < |pages| && Lists(pages, m, n)
    ensures var grown := if pages[n] in m then m else m[pages[n] := []];
      Lists(pages, grown[pages[n] := grown[pages[n]] + [n]], n + 1)
  {
    if pages[n] !in m {
      NewPage(pages, m, n, pages[n]);
      AppendParagraph(pages, m[pages[n] := []], n);
    } else {
      AppendParagraph(pages, m, n);
    }
  }

  // A mapping of the first n paragraphs is complete up to the limit when the next paragraph is beyond it.
  lemma Complete(pages: seq<nat>, maxPage: int, m: PageMap, n: nat)
    requires n <= |pages| && ArePageNumbers(pages) && Lists(pages, m, n)
    requires n < |pages| ==> pages[n] > maxPage
    requires forall p :: p in m && p <= maxPage && pages != [] ==> p in pages
    ensures IsPageMap(pages, maxPage, m)
  {
    forall p | p in m && p <= maxPage ensures m[p] == OnPage(pages, p, |pages|) {
      NoLaterOnPage(pages, p, n, |pages|);
    }
  }

  // _identify_page_paragraph_mapping.
  method IdentifyPages(paras: seq<Paragraph>, maxPage: int) returns (m: PageMap)
    ensures IsPageMap(PageNumbers(paras), maxPage, m)
  {
    PageNumbersAscend(paras);
    if |paras| > 1000 {
      m := EstimatePages(|paras|, maxPage, PageNumbers(paras));
    } else {
      m := FindPages(paras, maxPage);
    }
  }

  // The estimate for long documents.
  method EstimatePages(total: nat, maxPage: int, ghost pages: seq<nat>) returns (m: PageMap)
    requires ArePageNumbers(pages) && |pages| == total > 0
    requires forall i :: 0 <= i < total ==> pages[i] == i / 25
    ensures IsPageMap(pages, maxPage, m)
  {
    m := map[0 := []];
    var n := 0;
    while n < total
      invariant 0 <= n <= total
      invariant Lists(pages, m, n)
      invariant forall p :: p in m ==> p in pages
    {
      var page := n / 25;
      if page > maxPage {
        break;
      }
      PlaceParagraph(pages, m, n);
      if page !in m {
        m := m[page := []];
      }
      m := m[page := m[page] + [n]];
      n := n + 1;
    }
    Complete(pages, maxPage, m, n);
  }

  // Explicit page breaks. A break in the last paragraph opens a page that stays empty and is removed.
  method FindPages(paras: seq<Paragraph>, maxPage: int) returns (m: PageMap)
    requires |paras| <= 1000 && ArePageNumbers(PageNumbers(paras))
    ensures IsPageMap(PageNumbers(paras), maxPage, m)
  {
    ghost var pages := PageNumbers(paras);
    var current: nat := 0;
    m := map[0 := []];
    var n := 0;
    while n < |paras|
      invariant 0 <= n <= |paras|
      invariant current == Breaks(paras, n) && current in m
      invariant Lists(pages, m, n)
      invariant forall p :: p in m ==> p <= current
    {
      assert current == pages[n];
      AppendParagraph(pages, m, n);
      m := m[current := m[current] + [n]];
      n := n + 1;
      if paras[n - 1].breaks {
        current := current + 1;
        if current > maxPage {
          break;
        }
        NewPage(pages, m, n, current);
        m := m[current := []];
      }
    }
    assert n < |pages| ==> pages[n] == current;
    m := RemoveEmpty(pages, m, n);
    assert pages != [] ==> pages[0] in m;
    if m == map[] {
      m := map[0 := Range(0, |paras|)];
    }
    Complete(pages, maxPage, m, n);
  }

  method RemoveEmpty(ghost pages: seq<nat>, m: PageMap, ghost n: nat) returns (r: PageMap)
    requires n <= |pages| && Lists(pages, m, n)
    ensures Lists(pages, r, n)
    ensures forall p :: p in r ==> p in pages
  {
    r := map p | p in m && m[p] != [] :: m[p];
    forall i | 0 <= i < n ensures pages[i] in r {
      OnPageMember(pages, pages[i], n, i);
    }
    forall p | p in r ensures p in pages {
      if p !in pages {
        NoLaterOnPage(pages, p, 0, n);
      }
    }
  }

  // ---------- The pages to process ----------

  // sorted(mapping), kept below the limit: _apply_page_limit with from_page 0.
  function PagesBelow(m: PageMap, toPage: int): seq<nat>
    decreases toPage
  {
    if toPage <= 0 then []
    else if toPage - 1 in m then PagesBelow(m, toPage - 1) + [toPage - 1]
    else PagesBelow(m, toPage - 1)
  }

  ghost predicate SortedKeys(m: PageMap, ps: seq<nat>, limit: int) {
    (forall i :: 0 <= i < |ps| ==> ps[i] in m && ps[i] < limit) &&
    forall i, j :: 0 <= i < j < |ps| ==> ps[i] < ps[j]
  }

  lemma {:induction false} PagesBelowSorted(m: PageMap, toPage: int)
    ensures SortedKeys(m, PagesBelow(m, toPage), toPage)
    decreases toPage
  {
    if toPage > 0 {
      PagesBelowSorted(m, toPage - 1);
    }
  }

  function Flatten(m: PageMap, pages: seq<nat>): seq<nat>
    requires forall i :: 0 <= i < |pages| ==> pages[i] in m
  {
    if pages == [] then [] else Flatten(m, pages[..|pages| - 1]) + m[pages[|pages| - 1]]
  }

  lemma TileStep(m: PageMap, front: seq<nat>, p: nat, mid: nat, hi: nat)
    requires (forall i :: 0 <= i < |front| ==> front[i] in m) && p in m && mid <= hi
    requires Flatten(m, front) == Range(0, mid) && m[p] == Range(mid, hi)
    ensures Flatten(m, front + [p]) == Range(0, hi)
  {
    assert (front + [p])[..|front|] == front;
    RangeJoin(0, mid, hi);
  }

  ghost predicate Tiles(pages: seq<nat>, m: PageMap, toPage: nat) {
    var ps := PagesBelow(m, toPage);
    SortedKeys(m, ps, toPage) && Flatten(m, ps) == Range(0, CountBefore(pages, toPage, |pages|))
  }

  // Page p is mapped to the run of paragraphs between the pages before it and those after, or has none.
  ghost predicate IsRun(pages: seq<nat>, m: PageMap, p: nat) {
    var lo, hi := CountBefore(pages, p, |pages|), CountBefore(pages, p + 1, |pages|);
    lo <= hi && if p in m then m[p] == Range(lo, hi) else lo == hi
  }

  lemma MappedRun(pages: seq<nat>, maxPage: int, m: PageMap, p: nat)
    requires ArePageNumbers(pages) && IsPageMap(pages, maxPage, m) && p <= maxPage
    ensures IsRun(pages, m, p)
  {
    PageIsRun(pages, p, |pages|);
    if p !in m {
      NoLaterOnPage(pages, p, 0, |pages|);
      assert |Range(CountBefore(pages, p, |pages|), CountBefore(pages, p + 1, |pages|))| == 0;
    }
  }

  lemma {:induction false} RunsTile(pages: seq<nat>, m: PageMap, toPage: nat)
    requires forall p: nat :: p < toPage ==> IsRun(pages, m, p)
    ensures Tiles(pages, m, toPage)
  {
    PagesBelowSorted(m, toPage);
    if toPage == 0 {
      NoneBefore(pages, |pages|);
    } else {
      var p: nat := toPage - 1;
      RunsTile(pages, m, p);
      assert IsRun(pages, m, p);
      if p in m {
        TileStep(m, PagesBelow(m, p), p, CountBefore(pages, p, |pages|), CountBefore(pages, p + 1, |pages|));
      }
    }
  }

  // The pages to process, one after another, are the paragraphs 0..k-1 with no gap and no repeat, k counting the
  // paragraphs on pages below the limit.
  lemma PagesTile(pages: seq<nat>, maxPage: int, m: PageMap, toPage: nat)
    requires ArePageNumbers(pages) && IsPageMap(pages, maxPage, m) && toPage <= maxPage + 1
    ensures Tiles(pages, m, toPage)
  {
    forall p: nat | p < toPage ensures IsRun(pages, m, p) {
      MappedRun(pages, maxPage, m, p);
    }
    RunsTile(pages, m, toPage);
  }

  lemma {:induction false} NoneBefore(pages: seq<nat>, n: nat)
    requires n <= |pages|
    ensures CountBefore(pages, 0, n) == 0
  {
    if n > 0 {
      NoneBefore(pages, n - 1);
    }
  }

  // Every paragraph is processed exactly when the last one's page is below the limit.
  lemma WithinLimitProcessesAll(paras: seq<Paragraph>, toPage: nat)
    requires paras != []
    ensures var pages := PageNumbers(paras);
      CountBefore(pages, toPage, |pages|) == |paras| <==> pages[|pages| - 1] < toPage
  {
    var pages := PageNumbers(paras);
    PageNumbersAscend(paras);
    if pages[|pages| - 1] < toPage {
      AllBefore(pages, toPage, |pages| - 1);
    }
  }
}
