// Collecting the workers' pages in the order they finish and assembling the document text (docx_parser.py).
module DocxAssembly {
  import opened Wrappers
  import opened Text
  import opened DocxPipeline

  // A processed line: its page, its text with picture links in place, and its picture files.
  datatype Section = Section(pageNum: int, text: string, images: seq<string>)

  // ---------- Rendering ----------

  function Link(url: string): string {
    "![](" + url + ")"
  }

  // The parts of a line's text. None of `upload` stands for a picture that is missing or cannot be uploaded.
  function RenderParts(content: seq<Slot>, upload: string -> Option<string>): seq<string> {
    if content == [] then [] else RenderSlot(content[0], upload) + RenderParts(content[1..], upload)
  }

  function RenderSlot(slot: Slot, upload: string -> Option<string>): seq<string> {
    match slot
    case TextSlot(text) => if text == "" then [] else [text]
    case ImageSlot(path) => match upload(path) { case None => [] case Some(url) => [Link(url)] }
  }

  function Rendered(line: LineData, upload: string -> Option<string>): Section {
    Section(line.pageNum, Join("\n\n", RenderParts(line.content, upload)), line.images)
  }

  // What every line a worker returns looks like: its places name its own files, and without files its text is
  // its text parts.
  ghost predicate WorkerLine(line: LineData) {
    (forall s :: s in line.content && s.ImageSlot? ==> s.path in line.images) &&
    (line.images == [] ==> forall upload :: line.text == Rendered(line, upload).text)
  }

  // ---------- Order ----------

  // sorted(..., key=page_num): a stable sort.
  function Insert(sorted: seq<Section>, x: Section): seq<Section> {
    if sorted == [] then [x]
    else
      var last := sorted[|sorted| - 1];
      if last.pageNum <= x.pageNum then sorted + [x]
      else Insert(sorted[..|sorted| - 1], x) + [last]
  }

  function SortByPage(xs: seq<Section>): seq<Section> {
    if xs == [] then [] else Insert(SortByPage(xs[..|xs| - 1]), xs[|xs| - 1])
  }

  // The sections with text.
  function Kept(xs: seq<Section>): seq<Section> {
    if xs == [] then []
    else if xs[|xs| - 1].text == "" then Kept(xs[..|xs| - 1])
    else Kept(xs[..|xs| - 1]) + [xs[|xs| - 1]]
  }

  ghost predicate Ascending(xs: seq<Section>) {
    forall i, j :: 0 <= i < j < |xs| ==> xs[i].pageNum <= xs[j].pageNum
  }

  ghost predicate StrictlyAscending(xs: seq<Section>) {
    forall i, j :: 0 <= i < j < |xs| ==> xs[i].pageNum < xs[j].pageNum
  }

  ghost predicate DistinctPages(xs: seq<Section>) {
    forall i, j :: 0 <= i < j < |xs| ==> xs[i].pageNum != xs[j].pageNum
  }

  lemma {:induction false} InsertMembers(sorted: seq<Section>, x: Section)
    ensures forall y :: y in Insert(sorted, x) <==> y in sorted || y == x
  {
    if sorted != [] && sorted[|sorted| - 1].pageNum > x.pageNum {
      InsertMembers(sorted[..|sorted| - 1], x);
      assert sorted == sorted[..|sorted| - 1] + [sorted[|sorted| - 1]];
    }
  }

  lemma {:induction false} InsertAscending(sorted: seq<Section>, x: Section)
    requires Ascending(sorted)
    ensures Ascending(Insert(sorted, x))
  {
    if sorted != [] && sorted[|sorted| - 1].pageNum > x.pageNum {
      var front := sorted[..|sorted| - 1];
      InsertAscending(front, x);
      InsertMembers(front, x);
      var r := Insert(front, x);
      forall i | 0 <= i < |r| ensures r[i].pageNum <= sorted[|sorted| - 1].pageNum {
        assert r[i] in r;
      }
    }
  }

  lemma {:induction false} SortAscends(xs: seq<Section>)
    ensures Ascending(SortByPage(xs))
    ensures forall y :: y in SortByPage(xs) <==> y in xs
  {
    if xs != [] {
      var front, x := xs[..|xs| - 1], xs[|xs| - 1];
      SortAscends(front);
      InsertAscending(SortByPage(front), x);
      InsertMembers(SortByPage(front), x);
      assert xs == front + [x];
    }
  }

  lemma {:induction false} InsertStrict(sorted: seq<Section>, x: Section)
    requires StrictlyAscending(sorted) && forall y :: y in sorted ==> y.pageNum != x.pageNum
    ensures StrictlyAscending(Insert(sorted, x))
  {
    if sorted != [] {
      var front, last := sorted[..|sorted| - 1], sorted[|sorted| - 1];
      assert last in sorted;
      if last.pageNum > x.pageNum {
        InsertStrict(front, x);
        InsertMembers(front, x);
        var r := Insert(front, x);
        forall i | 0 <= i < |r| ensures r[i].pageNum < last.pageNum {
          assert r[i] in r;
        }
      } else {
        forall i | 0 <= i < |sorted| ensures sorted[i].pageNum < x.pageNum {}
      }
    }
  }

  lemma {:induction false} SortStrict(xs: seq<Section>)
    requires DistinctPages(xs)
    ensures StrictlyAscending(SortByPage(xs))
  {
    if xs != [] {
      var front, x := xs[..|xs| - 1], xs[|xs| - 1];
      SortStrict(front);
      SortAscends(front);
      InsertStrict(SortByPage(front), x);
    }
  }

  // Two strictly ascending sequences of the same sections are the same sequence.
  lemma {:induction false} StrictlyAscendingUnique(a: seq<Section>, b: seq<Section>)
    requires StrictlyAscending(a) && StrictlyAscending(b)
    requires forall y :: y in a <==> y in b
    ensures a == b
  {
    assert b != [] ==> b[0] in b;
    if a != [] {
      assert a[0] in a;
      assert b[0] in b;
      if a[0] != b[0] {
        SmallerThanAll(a, b);
        SmallerThanAll(b, a);
      }
      forall y ensures y in a[1..] <==> y in b[1..] {
        TailMember(a, y);
        TailMember(b, y);
      }
      StrictlyAscendingUnique(a[1..], b[1..]);
      assert a == [a[0]] + a[1..] && b == [b[0]] + b[1..];
    }
  }

  lemma SmallerThanAll(a: seq<Section>, b: seq<Section>)
    requires a != [] && b != [] && StrictlyAscending(a) && b[0] in a
    ensures a[0].pageNum <= b[0].pageNum
    ensures a[0].pageNum == b[0].pageNum ==> a[0] == b[0]
  {
    var i :| 0 <= i < |a| && a[i] == b[0];
  }

  lemma TailMember(a: seq<Section>, y: Section)
    requires a != [] && StrictlyAscending(a)
    ensures y in a[1..] <==> y in a && y != a[0]
  {
    if y in a && y != a[0] {
      var i :| 0 <= i < |a| && a[i] == y;
      assert a[1..][i - 1] == y;
    }
  }

  lemma KeptLast(front: seq<Section>, x: Section)
    ensures Kept(front + [x]) == if x.text == "" then Kept(front) else Kept(front) + [x]
  {
    assert (front + [x])[..|front|] == front;
  }

  lemma InsertLast(front: seq<Section>, last: Section, x: Section)
    ensures Insert(front + [last], x) ==
      if last.pageNum <= x.pageNum then front + [last] + [x] else Insert(front, x) + [last]
  {
    assert (front + [last])[..|front|] == front;
  }

  lemma InsertAtEnd(sorted: seq<Section>, x: Section)
    requires forall y :: y in sorted ==> y.pageNum <= x.pageNum
    ensures Insert(sorted, x) == sorted + [x]
  {
    if sorted != [] {
      assert sorted[|sorted| - 1] in sorted;
    }
  }

  lemma KeptBounded(sorted: seq<Section>, page: int)
    requires Ascending(sorted) && sorted != [] && sorted[|sorted| - 1].pageNum <= page
    ensures forall y :: y in Kept(sorted) ==> y.pageNum <= page
  {
    KeptMembers(sorted);
  }

  // Leaving out empty texts before or after sorting makes no difference.
  lemma {:induction false} KeptInsert(sorted: seq<Section>, x: Section)
    requires Ascending(sorted)
    ensures Kept(Insert(sorted, x)) == if x.text == "" then Kept(sorted) else Insert(Kept(sorted), x)
  {
    if sorted == [] {
      KeptLast([], x);
      assert [] + [x] == [x];
    } else {
      var front, last := sorted[..|sorted| - 1], sorted[|sorted| - 1];
      assert sorted == front + [last];
      KeptLast(front, last);
      if last.pageNum <= x.pageNum {
        KeptBounded(sorted, x.pageNum);
        KeptLast(sorted, x);
        InsertAtEnd(Kept(sorted), x);
      } else {
        KeptInsert(front, x);
        KeptLast(Insert(front, x), last);
        InsertLast(Kept(front), last, x);
      }
    }
  }

  lemma {:induction false} KeptMembers(xs: seq<Section>)
    ensures forall y :: y in Kept(xs) <==> y in xs && y.text != ""
  {
    if xs != [] {
      KeptMembers(xs[..|xs| - 1]);
      assert xs == xs[..|xs| - 1] + [xs[|xs| - 1]];
    }
  }

  lemma {:induction false} KeptSort(xs: seq<Section>)
    ensures Kept(SortByPage(xs)) == SortByPage(Kept(xs))
  {
    if xs != [] {
      var front, x := xs[..|xs| - 1], xs[|xs| - 1];
      KeptSort(front);
      SortAscends(front);
      KeptInsert(SortByPage(front), x);
      if x.text != "" {
        assert (Kept(front) + [x])[..|Kept(front)|] == Kept(front);
      }
    }
  }

  // ---------- Every completion order ----------

  ghost predicate InRange(order: seq<nat>, n: nat) {
    forall k :: 0 <= k < |order| ==> order[k] < n
  }

  // A completion order: every page once.
  ghost predicate IsOrder(order: seq<nat>, n: nat) {
    InRange(order, n) && NoRepeat(order) && forall i :: 0 <= i < n ==> i in order
  }

  ghost predicate NoRepeat(order: seq<nat>) {
    forall i, j :: 0 <= i < j < |order| ==> order[i] != order[j]
  }

  // The lines of the pages named by `order`, a page that failed giving none.
  function Collected(results: seq<Option<LineData>>, order: seq<nat>): seq<LineData>
    requires InRange(order, |results|)
  {
    if order == [] then []
    else
      var front := Collected(results, order[..|order| - 1]);
      match results[order[|order| - 1]] { case None => front case Some(line) => front + [line] }
  }

  function RenderAll(lines: seq<LineData>, upload: string -> Option<string>): seq<Section> {
    seq(|lines|, i requires 0 <= i < |lines| => Rendered(lines[i], upload))
  }

  function InTurn(n: nat): seq<nat> {
    seq(n, i requires 0 <= i < n => i)
  }

  // Page numbers rise with the position in the work list.
  ghost predicate AscendingResults(results: seq<Option<LineData>>) {
    forall i, j :: 0 <= i < j < |results| && results[i].Some? && results[j].Some? ==>
      results[i].value.pageNum < results[j].value.pageNum
  }

  lemma {:induction false} CollectedMember(results: seq<Option<LineData>>, order: seq<nat>, line: LineData)
    requires InRange(order, |results|)
    ensures line in Collected(results, order) <==>
      exists k :: 0 <= k < |order| && results[order[k]] == Some(line)
  {
    if order != [] {
      var front, last := order[..|order| - 1], order[|order| - 1];
      CollectedMember(results, front, line);
      if k :| 0 <= k < |order| && results[order[k]] == Some(line) {
        assert k < |front| ==> front[k] == order[k];
      }
      if k :| 0 <= k < |front| && results[front[k]] == Some(line) {
        assert order[k] == front[k];
      }
    }
  }

  lemma {:induction false} CollectedDistinct(results: seq<Option<LineData>>, order: seq<nat>)
    requires InRange(order, |results|) && NoRepeat(order) && AscendingResults(results)
    ensures var lines := Collected(results, order);
      forall i, j :: 0 <= i < j < |lines| ==> lines[i].pageNum != lines[j].pageNum
  {
    if order != [] {
      var front, last := order[..|order| - 1], order[|order| - 1];
      CollectedDistinct(results, front);
      var lines := Collected(results, front);
      if results[last].Some? {
        forall i | 0 <= i < |lines| ensures lines[i].pageNum != results[last].value.pageNum {
          CollectedMember(results, front, lines[i]);
          var k :| 0 <= k < |front| && results[front[k]] == Some(lines[i]);
          assert order[k] == front[k] != last;
          assert order[k] < last || last < order[k];
        }
      }
    }
  }

  lemma {:induction false} KeptDistinct(xs: seq<Section>)
    requires DistinctPages(xs)
    ensures DistinctPages(Kept(xs))
  {
    if xs != [] {
      var front := xs[..|xs| - 1];
      KeptDistinct(front);
      KeptMembers(front);
      forall i | 0 <= i < |Kept(front)| ensures Kept(front)[i].pageNum != xs[|xs| - 1].pageNum {
        assert Kept(front)[i] in Kept(front);
      }
    }
  }

  lemma {:induction false} KeptStrict(xs: seq<Section>)
    requires StrictlyAscending(xs)
    ensures StrictlyAscending(Kept(xs))
  {
    if xs != [] {
      var front := xs[..|xs| - 1];
      KeptStrict(front);
      KeptMembers(front);
      forall i | 0 <= i < |Kept(front)| ensures Kept(front)[i].pageNum < xs[|xs| - 1].pageNum {
        assert Kept(front)[i] in Kept(front);
      }
    }
  }

  ghost predicate StrictLines(lines: seq<LineData>) {
    forall i, j :: 0 <= i < j < |lines| ==> lines[i].pageNum < lines[j].pageNum
  }

  lemma StrictLinesLast(lines: seq<LineData>, last: LineData)
    requires StrictLines(lines) && forall i :: 0 <= i < |lines| ==> lines[i].pageNum < last.pageNum
    ensures StrictLines(lines + [last])
  {
  }

  lemma {:induction false} CollectedInTurnStrict(results: seq<Option<LineData>>, n: nat)
    requires n <= |results| && AscendingResults(results)
    ensures StrictLines(Collected(results, InTurn(n)))
  {
    if n > 0 {
      assert InTurn(n)[..n - 1] == InTurn(n - 1) && InTurn(n)[n - 1] == n - 1;
      CollectedInTurnStrict(results, n - 1);
      var lines := Collected(results, InTurn(n - 1));
      if results[n - 1].Some? {
        var last := results[n - 1].value;
        forall i | 0 <= i < |lines| ensures lines[i].pageNum < last.pageNum {
          CollectedMember(results, InTurn(n - 1), lines[i]);
        }
        StrictLinesLast(lines, last);
      }
    }
  }

  lemma InTurnIsOrder(n: nat)
    ensures IsOrder(InTurn(n), n)
  {
    forall i: nat | i < n ensures i in InTurn(n) {
      assert InTurn(n)[i] == i;
    }
  }

  // Whatever order the pages finish in, the sections with text come out as if the pages had been handled one
  // after another.
  lemma AnyOrderIsSequential(results: seq<Option<LineData>>, order: seq<nat>,
      upload: string -> Option<string>)
    requires AscendingResults(results) && IsOrder(order, |results|)
    ensures InRange(InTurn(|results|), |results|)
    ensures SortByPage(Kept(RenderAll(Collected(results, order), upload))) ==
      Kept(RenderAll(Collected(results, InTurn(|results|)), upload))
  {
    InTurnIsOrder(|results|);
    OrderDistinct(results, order, upload);
    InTurnStrict(results, upload);
    SameMembers(results, order, InTurn(|results|), upload);
    SameSections(RenderAll(Collected(results, order), upload),
      RenderAll(Collected(results, InTurn(|results|)), upload));
  }

  lemma OrderDistinct(results: seq<Option<LineData>>, order: seq<nat>,
      upload: string -> Option<string>)
    requires AscendingResults(results) && InRange(order, |results|) && NoRepeat(order)
    ensures DistinctPages(RenderAll(Collected(results, order), upload))
  {
    CollectedDistinct(results, order);
  }

  lemma InTurnStrict(results: seq<Option<LineData>>, upload: string -> Option<string>)
    requires AscendingResults(results)
    ensures StrictlyAscending(RenderAll(Collected(results, InTurn(|results|)), upload))
  {
    CollectedInTurnStrict(results, |results|);
  }

  lemma SameMembers(results: seq<Option<LineData>>, a: seq<nat>, b: seq<nat>, upload: string -> Option<string>)
    requires IsOrder(a, |results|) && IsOrder(b, |results|)
    ensures forall y :: y in RenderAll(Collected(results, a), upload) <==> y in RenderAll(Collected(results, b), upload)
  {
    forall y ensures y in RenderAll(Collected(results, a), upload) <==> y in RenderAll(Collected(results, b), upload) {
      RenderedMember(results, a, upload, y);
      RenderedMember(results, b, upload, y);
    }
  }

  lemma SameSections(a: seq<Section>, b: seq<Section>)
    requires DistinctPages(a) && StrictlyAscending(b) && forall y :: y in a <==> y in b
    ensures SortByPage(Kept(a)) == Kept(b)
  {
    KeptDistinct(a);
    SortStrict(Kept(a));
    SortAscends(Kept(a));
    KeptStrict(b);
    KeptMembers(a);
    KeptMembers(b);
    StrictlyAscendingUnique(SortByPage(Kept(a)), Kept(b));
  }

  lemma RenderedMember(results: seq<Option<LineData>>, order: seq<nat>, upload: string -> Option<string>, y: Section)
    requires IsOrder(order, |results|)
    ensures y in RenderAll(Collected(results, order), upload) <==>
      exists i :: 0 <= i < |results| && results[i].Some? && y == Rendered(results[i].value, upload)
  {
    var lines := Collected(results, order);
    if y in RenderAll(lines, upload) {
      var k :| 0 <= k < |lines| && y == Rendered(lines[k], upload);
      CollectedMember(results, order, lines[k]);
    }
    if i :| 0 <= i < |results| && results[i].Some? && y == Rendered(results[i].value, upload) {
      assert i in order;
      var j :| 0 <= j < |order| && order[j] == i;
      assert results[order[j]] == Some(results[i].value);
      CollectedMember(results, order, results[i].value);
      var k :| 0 <= k < |lines| && lines[k] == results[i].value;
      assert RenderAll(lines, upload)[k] == y;
    }
  }

  // ---------- The program ----------

  // The links of all pictures of the lines that could be uploaded.
  ghost predicate HoldsLinks(urls: map<string, string>, upload: string -> Option<string>) {
    forall path :: path in urls ==> upload(path).Some? && urls[path] == "![](" + upload(path).value + ")"
  }

  // _process_multiprocess_results. Lines without content keep a page number left over from another line, but
  // have no text.
  method ProcessResults(lines: seq<LineData>, upload: string -> Option<string>) returns (all: seq<Section>)
    requires forall i :: 0 <= i < |lines| ==> WorkerLine(lines[i])
    ensures Kept(all) == SortByPage(Kept(RenderAll(lines, upload)))
  {
    var processed: seq<Section> := [];
    var anyImages := false;
    for i := 0 to |lines|
      invariant anyImages <==> exists j :: 0 <= j < i && lines[j].images != []
    {
      if lines[i].images != [] {
        anyImages := true;
      }
    }
    if anyImages {
      var urls, pageNum := UploadImages(lines, upload);
      processed := RenderLines(lines, upload, urls, pageNum);
    } else {
      processed := seq(|lines|, i requires 0 <= i < |lines| =>
        Section(lines[i].pageNum, lines[i].text, lines[i].images));
      forall i | 0 <= i < |lines| ensures processed[i] == Rendered(lines[i], upload) {
        assert WorkerLine(lines[i]);
      }
    }
    all := SortByPage(processed);
    KeptSort(processed);
    KeptSame(processed, RenderAll(lines, upload));
  }

  method UploadImages(lines: seq<LineData>, upload: string -> Option<string>)
    returns (urls: map<string, string>, pageNum: int)
    ensures HoldsLinks(urls, upload)
    ensures forall i, path :: 0 <= i < |lines| && path in lines[i].images && upload(path).Some? ==> path in urls
  {
    urls, pageNum := map[], 0;
    for i := 0 to |lines|
      invariant HoldsLinks(urls, upload)
      invariant forall j, path :: 0 <= j < i && path in lines[j].images && upload(path).Some? ==> path in urls
    {
      var images := lines[i].images;
      if images != [] {
        pageNum := lines[i].pageNum;
      }
      for k := 0 to |images|
        invariant HoldsLinks(urls, upload)
        invariant forall j, path :: 0 <= j < i && path in lines[j].images && upload(path).Some? ==> path in urls
        invariant forall j :: 0 <= j < k && upload(images[j]).Some? ==> images[j] in urls
      {
        if images[k] !in urls {
          match upload(images[k]) {
            case Some(url) => urls := urls[images[k] := Link(url)];
            case None =>
          }
        }
      }
    }
  }

  // Equal except for the pages of sections without text.
  ghost predicate SameButEmpty(a: seq<Section>, b: seq<Section>) {
    |a| == |b| && forall i :: 0 <= i < |a| ==> a[i].text == b[i].text && (a[i].text != "" ==> a[i] == b[i])
  }

  lemma {:induction false} KeptSame(a: seq<Section>, b: seq<Section>)
    requires SameButEmpty(a, b)
    ensures Kept(a) == Kept(b)
  {
    if a != [] {
      KeptSame(a[..|a| - 1], b[..|b| - 1]);
    }
  }

  method RenderLines(lines: seq<LineData>, upload: string -> Option<string>, urls: map<string, string>, lastPage: int)
    returns (processed: seq<Section>)
    requires forall i :: 0 <= i < |lines| ==> WorkerLine(lines[i])
    requires HoldsLinks(urls, upload)
    requires forall i, path :: 0 <= i < |lines| && path in lines[i].images && upload(path).Some? ==> path in urls
    ensures SameButEmpty(processed, RenderAll(lines, upload))
  {
    processed := [];
    var pageNum := lastPage;
    for i := 0 to |lines|
      invariant SameButEmpty(processed, RenderAll(lines[..i], upload))
    {
      var line := lines[i];
      if line.content != [] {
        pageNum := line.pageNum;
      }
      LinkedFiles(line, upload, urls);
      var parts := CombineParts(line.content, upload, urls);
      var section := Section(pageNum, Join("\n\n", parts), line.images);
      RenderedSection(line, upload, section);
      RenderAllNext(lines, i, upload);
      SameButEmptyNext(processed, RenderAll(lines[..i], upload), section, Rendered(line, upload));
      processed := processed + [section];
    }
    assert lines[..|lines|] == lines;
  }

  lemma LinkedFiles(line: LineData, upload: string -> Option<string>, urls: map<string, string>)
    requires WorkerLine(line) && forall path :: path in line.images && upload(path).Some? ==> path in urls
    ensures forall s :: s in line.content && s.ImageSlot? && upload(s.path).Some? ==> s.path in urls
  {
  }

  // A line without content keeps whatever page number was left over, and has no text.
  lemma RenderedSection(line: LineData, upload: string -> Option<string>, section: Section)
    requires section.text == Join("\n\n", RenderParts(line.content, upload)) && section.images == line.images
    requires line.content != [] ==> section.pageNum == line.pageNum
    ensures section.text == Rendered(line, upload).text
    ensures section.text != "" ==> section == Rendered(line, upload)
  {
  }

  lemma RenderAllNext(lines: seq<LineData>, i: nat, upload: string -> Option<string>)
    requires i < |lines|
    ensures RenderAll(lines[..i + 1], upload) == RenderAll(lines[..i], upload) + [Rendered(lines[i], upload)]
  {
  }

  lemma SameButEmptyNext(a: seq<Section>, b: seq<Section>, x: Section, y: Section)
    requires SameButEmpty(a, b) && x.text == y.text && (x.text != "" ==> x == y)
    ensures SameButEmpty(a + [x], b + [y])
  {
  }

  lemma RenderNext(content: seq<Slot>, k: nat, upload: string -> Option<string>, parts: seq<string>)
    requires k < |content|
    ensures parts + RenderParts(content[k..], upload) ==
      (parts + RenderSlot(content[k], upload)) + RenderParts(content[k + 1..], upload)
  {
    assert content[k..][1..] == content[k + 1..];
  }

  method CombineParts(content: seq<Slot>, ghost upload: string -> Option<string>, urls: map<string, string>)
    returns (parts: seq<string>)
    requires HoldsLinks(urls, upload)
    requires forall s :: s in content && s.ImageSlot? && upload(s.path).Some? ==> s.path in urls
    ensures parts == RenderParts(content, upload)
  {
    parts := [];
    assert content[0..] == content;
    for k := 0 to |content|
      invariant RenderParts(content, upload) == parts + RenderParts(content[k..], upload)
    {
      RenderNext(content, k, upload, parts);
      assert content[k] in content;
      var part := CombineSlot(content[k], upload, urls);
      parts := parts + part;
    }
  }

  method CombineSlot(slot: Slot, ghost upload: string -> Option<string>, urls: map<string, string>)
    returns (part: seq<string>)
    requires HoldsLinks(urls, upload)
    requires slot.ImageSlot? && upload(slot.path).Some? ==> slot.path in urls
    ensures part == RenderSlot(slot, upload)
  {
    part := [];
    match slot {
      case TextSlot(text) =>
        if text != "" {
          part := [text];
        }
      case ImageSlot(path) =>
        if path in urls {
          part := [urls[path]];
        }
    }
  }

  // _collect_process_results: pages arrive in completion order, and the text comes out as if they had been
  // handled in turn.
  method CollectResults(results: seq<Option<LineData>>, order: seq<nat>, upload: string -> Option<string>)
    returns (all: seq<Section>)
    requires AscendingResults(results) && IsOrder(order, |results|)
    requires forall i :: 0 <= i < |results| && results[i].Some? ==> WorkerLine(results[i].value)
    ensures InRange(InTurn(|results|), |results|)
    ensures Kept(all) == Kept(RenderAll(Collected(results, InTurn(|results|)), upload))
  {
    var lines: seq<LineData> := [];
    for k := 0 to |order|
      invariant lines == Collected(results, order[..k])
      invariant forall i :: 0 <= i < |lines| ==> WorkerLine(lines[i])
    {
      assert order[..k + 1][..k] == order[..k];
      match results[order[k]] {
        case Some(line) => lines := lines + [line];
        case None =>
      }
    }
    assert order[..|order|] == order;
    all := ProcessResults(lines, upload);
    AnyOrderIsSequential(results, order, upload);
  }

  // The join in parse_into_text.
  function SectionTexts(xs: seq<Section>): seq<string> {
    if xs == [] then [] else SectionTexts(xs[..|xs| - 1]) + [xs[|xs| - 1].text]
  }

  method JoinSections(all: seq<Section>) returns (text: string)
    ensures text == Join("\n\n", SectionTexts(Kept(all)))
  {
    var parts: seq<string> := [];
    assert all[..0] == [];
    for i := 0 to |all|
      invariant parts == SectionTexts(Kept(all[..i]))
    {
      assert all[..i + 1] == all[..i] + [all[i]];
      KeptLast(all[..i], all[i]);
      if all[i].text != "" {
        assert (Kept(all[..i]) + [all[i]])[..|Kept(all[..i])|] == Kept(all[..i]);
        parts := parts + [all[i].text];
      }
    }
    assert all[..|all|] == all;
    text := Join("\n\n", parts);
  }
}
