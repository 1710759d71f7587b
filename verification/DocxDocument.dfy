// A Word document from paragraphs to text (docx_parser.py): page split, workers, assembly.
module DocxDocument {
  import opened Wrappers
  import opened Text
  import opened DocxPages
  import opened DocxPipeline
  import opened DocxPictures
  import opened DocxAssembly

  // What the outside world does: whether a worker loads its copy of the document, where it saves picture k of a
  // page, what an upload of a saved file returns, whether anything on the way raises an exception, and what the simple
  // method makes of the document.
  datatype World = World(
    loads: nat -> bool,
    save: (nat, nat) -> Option<string>,
    upload: string -> Option<string>,
    raises: bool,
    simple: string)

  function Saver(world: World, p: nat): nat -> Option<string> {
    (k: nat) => world.save(p, k)
  }

  function Select(paras: seq<Paragraph>, indices: seq<nat>): seq<Extract> {
    if indices == [] then []
    else
      var front := Select(paras, indices[..|indices| - 1]);
      var i := indices[|indices| - 1];
      if i < |paras| then front + [ReadParagraph(paras[i])] else front
  }

  // process_page_multiprocess: None when the copy does not load or the page has no paragraphs.
  function PageResult(extracts: seq<Extract>, p: nat, world: World): Option<LineData> {
    if !world.loads(p) || extracts == [] then None
    else Some(PageLine(extracts, p, Saver(world, p)))
  }

  // ---------- Worker lines ----------

  lemma {:induction false} SlotsUseFiles(content: seq<Content>, files: seq<string>)
    ensures forall s :: s in Slots(content, files) && s.ImageSlot? ==> s.path in files
  {
    if content != [] {
      if content[0].TextPart? || files == [] {
        SlotsUseFiles(content[1..], files);
      } else {
        SlotsUseFiles(content[1..], files[1..]);
      }
    }
  }

  lemma {:induction false} NoFilesTextOnly(content: seq<Content>, upload: string -> Option<string>)
    requires forall i :: 0 <= i < |content| && content[i].TextPart? ==> content[i].text != ""
    ensures RenderParts(Slots(content, []), upload) == Texts(content)
  {
    if content != [] {
      NoFilesTextOnly(content[1..], upload);
      if content[0].TextPart? {
        var slots := Slots(content, []);
        assert slots == [TextSlot(content[0].text)] + Slots(content[1..], []);
        assert slots[1..] == Slots(content[1..], []);
      }
    }
  }

  // Every page result is a line the assembly can rely on.
  lemma PageLineIsWorkerLine(extracts: seq<Extract>, p: nat, save: nat -> Option<string>)
    ensures WorkerLine(PageLine(extracts, p, save))
  {
    var content := ContentFrom(extracts, "");
    var files := Saved(ImageCount(content), save);
    ContentKeepsStream(extracts, "");
    SlotsUseFiles(content, files);
    var line := PageLine(extracts, p, save);
    forall upload ensures files == [] ==> line.text == Rendered(line, upload).text {
      NoFilesTextOnly(content, upload);
    }
  }

  // ---------- One page after another ----------

  // The paragraphs of each page below the limit.
  function PageList(paras: seq<Paragraph>, toPage: nat): (r: seq<seq<Extract>>)
    ensures |r| == toPage
  {
    seq(toPage, p requires 0 <= p < toPage => Select(paras, OnPage(PageNumbers(paras), p, |paras|)))
  }

  // The text of page p, "" when it has none or its worker failed.
  function PageText(extracts: seq<Extract>, p: nat, world: World): string {
    ResultText(PageResult(extracts, p, world), world.upload)
  }

  function ResultText(r: Option<LineData>, upload: string -> Option<string>): string {
    match r { case None => "" case Some(line) => Rendered(line, upload).text }
  }

  // The texts of the pages, handled one after another.
  function PageTexts(pages: seq<seq<Extract>>, world: World): seq<string> {
    if pages == [] then []
    else
      var p := |pages| - 1;
      AddText(PageTexts(pages[..p], world), PageText(pages[p], p, world))
  }

  function AddText(texts: seq<string>, text: string): seq<string> {
    if text == "" then texts else texts + [text]
  }

  // ---------- The collected results, taken in turn ----------

  function TextsOf(lines: seq<LineData>, upload: string -> Option<string>): seq<string> {
    SectionTexts(Kept(RenderAll(lines, upload)))
  }

  lemma TextsOfLast(lines: seq<LineData>, line: LineData, upload: string -> Option<string>)
    ensures TextsOf(lines + [line], upload) == AddText(TextsOf(lines, upload), Rendered(line, upload).text)
  {
    var sections, x := RenderAll(lines, upload), Rendered(line, upload);
    assert RenderAll(lines + [line], upload) == sections + [x];
    KeptLast(sections, x);
    if x.text != "" {
      assert (Kept(sections) + [x])[..|Kept(sections)|] == Kept(sections);
    }
  }

  lemma {:induction false} CollectedExtends(front: seq<Option<LineData>>, r: Option<LineData>, order: seq<nat>)
    requires InRange(order, |front|)
    ensures InRange(order, |front| + 1) && Collected(front + [r], order) == Collected(front, order)
  {
    if order != [] {
      CollectedExtends(front, r, order[..|order| - 1]);
    }
  }

  function TextsInTurn(results: seq<Option<LineData>>, upload: string -> Option<string>): seq<string> {
    if results == [] then []
    else AddText(TextsInTurn(results[..|results| - 1], upload), ResultText(results[|results| - 1], upload))
  }

  lemma TextsInTurnLast(front: seq<Option<LineData>>, r: Option<LineData>, upload: string -> Option<string>)
    ensures TextsInTurn(front + [r], upload) == AddText(TextsInTurn(front, upload), ResultText(r, upload))
  {
    assert (front + [r])[..|front|] == front;
  }

  lemma CollectedLast(front: seq<Option<LineData>>, r: Option<LineData>)
    ensures InRange(InTurn(|front|), |front|) && InRange(InTurn(|front| + 1), |front + [r]|)
    ensures Collected(front + [r], InTurn(|front| + 1)) ==
      if r.Some? then Collected(front, InTurn(|front|)) + [r.value] else Collected(front, InTurn(|front|))
  {
    assert InTurn(|front| + 1)[..|front|] == InTurn(|front|);
    CollectedExtends(front, r, InTurn(|front|));
  }

  lemma NothingCollected(upload: string -> Option<string>)
    ensures InRange(InTurn(0), 0)
    ensures TextsOf(Collected([], InTurn(0)), upload) == TextsInTurn([], upload) == []
  {
  }

  lemma {:induction false} CollectedTexts(results: seq<Option<LineData>>, upload: string -> Option<string>)
    ensures InRange(InTurn(|results|), |results|)
    ensures TextsOf(Collected(results, InTurn(|results|)), upload) == TextsInTurn(results, upload)
  {
    hide InRange, InTurn, Collected, TextsOf, TextsInTurn;
    if results == [] {
      NothingCollected(upload);
    } else {
      var front, r := results[..|results| - 1], results[|results| - 1];
      CollectedTexts(front, upload);
      CollectedTextsNext(front, r, upload);
      assert results == front + [r];
    }
  }

  lemma CollectedTextsNext(front: seq<Option<LineData>>, r: Option<LineData>, upload: string -> Option<string>)
    requires InRange(InTurn(|front|), |front|)
    requires TextsOf(Collected(front, InTurn(|front|)), upload) == TextsInTurn(front, upload)
    ensures InRange(InTurn(|front| + 1), |front + [r]|)
    ensures TextsOf(Collected(front + [r], InTurn(|front| + 1)), upload) == TextsInTurn(front + [r], upload)
  {
    CollectedLast(front, r);
    OneMoreText(Collected(front, InTurn(|front|)), r, upload);
    TextsInTurnLast(front, r, upload);
  }

  lemma OneMoreText(lines: seq<LineData>, r: Option<LineData>, upload: string -> Option<string>)
    ensures TextsOf(if r.Some? then lines + [r.value] else lines, upload) ==
            AddText(TextsOf(lines, upload), ResultText(r, upload))
  {
    if r.Some? {
      TextsOfLast(lines, r.value, upload);
    }
  }

  // ---------- The results of the mapped pages ----------

  ghost predicate AreKeys(m: PageMap, pages: seq<nat>) {
    forall i :: 0 <= i < |pages| ==> pages[i] in m
  }

  // The worker results for a list of pages.
  function Results(paras: seq<Paragraph>, m: PageMap, pages: seq<nat>, world: World): seq<Option<LineData>>
    requires AreKeys(m, pages)
  {
    if pages == [] then []
    else
      var p := pages[|pages| - 1];
      Results(paras, m, pages[..|pages| - 1], world) + [PageResult(Select(paras, m[p]), p, world)]
  }

  ghost predicate ResultsOk(results: seq<Option<LineData>>, limit: int) {
    AscendingResults(results) &&
    forall i :: 0 <= i < |results| && results[i].Some? ==>
      WorkerLine(results[i].value) && results[i].value.pageNum < limit
  }

  lemma ResultsLast(paras: seq<Paragraph>, m: PageMap, front: seq<nat>, p: nat, world: World)
    requires AreKeys(m, front + [p])
    ensures AreKeys(m, front) && p in m
    ensures Results(paras, m, front + [p], world) ==
            Results(paras, m, front, world) + [PageResult(Select(paras, m[p]), p, world)]
  {
    assert (front + [p])[..|front|] == front && (front + [p])[|front|] == p;
    forall i | 0 <= i < |front| ensures front[i] in m {
      assert front[i] == (front + [p])[i];
    }
  }

  lemma PageResultOk(extracts: seq<Extract>, p: nat, world: World)
    ensures var r := PageResult(extracts, p, world); r.Some? ==> WorkerLine(r.value) && r.value.pageNum == p
  {
    PageLineIsWorkerLine(extracts, p, Saver(world, p));
  }

  lemma {:induction false} ResultsAscend(paras: seq<Paragraph>, m: PageMap, toPage: nat, world: World)
    ensures AreKeys(m, PagesBelow(m, toPage))
    ensures ResultsOk(Results(paras, m, PagesBelow(m, toPage), world), toPage)
  {
    PagesBelowSorted(m, toPage);
    if toPage > 0 {
      var p: nat := toPage - 1;
      ResultsAscend(paras, m, p, world);
      if p in m {
        ResultsLast(paras, m, PagesBelow(m, p), p, world);
        PageResultOk(Select(paras, m[p]), p, world);
        OneMoreResult(Results(paras, m, PagesBelow(m, p), world), PageResult(Select(paras, m[p]), p, world), p);
      } else {
        NoMoreResult(Results(paras, m, PagesBelow(m, p), world), p);
      }
    }
  }

  lemma NoMoreResult(front: seq<Option<LineData>>, p: nat)
    requires ResultsOk(front, p)
    ensures ResultsOk(front, p + 1)
  {
  }

  lemma OneMoreResult(front: seq<Option<LineData>>, r: Option<LineData>, p: nat)
    requires ResultsOk(front, p) && (r.Some? ==> WorkerLine(r.value) && r.value.pageNum == p)
    ensures ResultsOk(front + [r], p + 1)
  {
  }

  lemma NoParagraphsNoText(p: nat, world: World)
    ensures PageText([], p, world) == ""
  {
  }

  // A page the mapping does not have has no paragraphs.
  lemma MappedPage(paras: seq<Paragraph>, maxPage: int, m: PageMap, p: nat)
    requires IsPageMap(PageNumbers(paras), maxPage, m) && p <= maxPage
    ensures OnPage(PageNumbers(paras), p, |paras|) == if p in m then m[p] else []
  {
    if p !in m {
      NoLaterOnPage(PageNumbers(paras), p, 0, |paras|);
    }
  }

  lemma {:induction false} TextsAreSequential(paras: seq<Paragraph>, maxPage: int, m: PageMap, toPage: nat,
      world: World)
    requires IsPageMap(PageNumbers(paras), maxPage, m) && toPage <= maxPage + 1
    ensures AreKeys(m, PagesBelow(m, toPage))
    ensures TextsInTurn(Results(paras, m, PagesBelow(m, toPage), world), world.upload) ==
            PageTexts(PageList(paras, toPage), world)
  {
    PagesBelowSorted(m, toPage);
    if toPage > 0 {
      var p: nat := toPage - 1;
      TextsAreSequential(paras, maxPage, m, p, world);
      MappedPage(paras, maxPage, m, p);
      PageTextsNext(paras, p, world);
      if p in m {
        var extracts, front := Select(paras, m[p]), PagesBelow(m, p);
        ResultsLast(paras, m, front, p, world);
        TextsInTurnLast(Results(paras, m, front, world), PageResult(extracts, p, world), world.upload);
      } else {
        NoParagraphsNoText(p, world);
      }
    }
  }

  lemma PageTextsNext(paras: seq<Paragraph>, p: nat, world: World)
    ensures PageTexts(PageList(paras, p + 1), world) ==
      AddText(PageTexts(PageList(paras, p), world),
        PageText(Select(paras, OnPage(PageNumbers(paras), p, |paras|)), p, world))
  {
    assert PageList(paras, p + 1)[..p] == PageList(paras, p);
  }

  // The whole path from paragraphs to text: the mapping, the pages below the limit, their workers, and the simple
  // method if there is no text or an exception. Whatever order finish(n) the n page workers finish in, the text is the
  // one of handling the pages one after another.
  method ParseDocument(paras: seq<Paragraph>, maxPages: nat, world: World, finish: nat -> seq<nat>)
    returns (text: string)
    requires forall n :: IsOrder(finish(n), n)
    ensures var pageText := Join("\n\n", PageTexts(PageList(paras, maxPages), world));
      text == if world.raises || pageText == "" then world.simple else pageText
  {
    if world.raises {
      return world.simple;
    }
    var m := IdentifyPages(paras, maxPages);
    var pages := PagesBelow(m, maxPages);
    ResultsAscend(paras, m, maxPages, world);
    var results := Results(paras, m, pages, world);
    var all := CollectResults(results, finish(|results|), world.upload);
    TextsAreSequential(paras, maxPages, m, maxPages, world);
    CollectedTexts(results, world.upload);
    text := JoinSections(all);
    if text == "" {
      text := world.simple;
    }
  }

  // ---------- Pictures in their own places ----------

  // The link of picture k of a page; nothing if it cannot be saved or uploaded.
  function PictureLink(p: nat, k: nat, world: World): seq<string> {
    match world.save(p, k)
    case None => []
    case Some(path) => match world.upload(path) { case None => [] case Some(url) => ["![](" + url + ")"] }
  }

  // A page's parts with each picture's own link in its own place, pictures counted from k.
  function OwnParts(content: seq<Content>, p: nat, k: nat, world: World): seq<string> {
    if content == [] then []
    else match content[0] {
      case TextPart(text) => [text] + OwnParts(content[1..], p, k, world)
      case ImagePart(_) => PictureLink(p, k, world) + OwnParts(content[1..], p, k + 1, world)
    }
  }

  // The parts of all pages that load, in page order.
  function DocumentParts(pages: seq<seq<Extract>>, world: World): seq<string> {
    if pages == [] then []
    else
      var p := |pages| - 1;
      DocumentParts(pages[..p], world) +
        if world.loads(p) then OwnParts(ContentFrom(pages[p], ""), p, 0, world) else []
  }

  // On no page that loads a text part lies between the place a picture takes and its own.
  ghost predicate InPlaceOnPages(pages: seq<seq<Extract>>, world: World) {
    forall p: nat :: p < |pages| && world.loads(p) ==> InPlace(ContentFrom(pages[p], ""), Saver(world, p))
  }

  ghost predicate TextsNonEmpty(content: seq<Content>) {
    forall i :: 0 <= i < |content| && content[i].TextPart? ==> content[i].text != ""
  }

  lemma RenderCons(slot: Slot, rest: seq<Slot>, upload: string -> Option<string>)
    ensures RenderParts([slot] + rest, upload) == RenderSlot(slot, upload) + RenderParts(rest, upload)
  {
    assert ([slot] + rest)[1..] == rest;
  }

  lemma {:induction false} RenderOwn(content: seq<Content>, p: nat, k: nat, world: World)
    requires TextsNonEmpty(content)
    ensures RenderParts(Own(content, k, Saver(world, p)), world.upload) == OwnParts(content, p, k, world)
    ensures "" !in OwnParts(content, p, k, world)
  {
    if content != [] {
      if content[0].TextPart? {
        RenderOwn(content[1..], p, k, world);
        RenderCons(TextSlot(content[0].text), Own(content[1..], k, Saver(world, p)), world.upload);
      } else {
        var rest := Own(content[1..], k + 1, Saver(world, p));
        RenderOwn(content[1..], p, k + 1, world);
        if world.save(p, k).Some? {
          RenderCons(ImageSlot(world.save(p, k).value), rest, world.upload);
        } else {
          assert [] + rest == rest;
        }
      }
    }
  }

  lemma PageTextIsOwn(extracts: seq<Extract>, p: nat, world: World)
    requires world.loads(p) && InPlace(ContentFrom(extracts, ""), Saver(world, p))
    ensures PageText(extracts, p, world) == Join("\n\n", OwnParts(ContentFrom(extracts, ""), p, 0, world))
    ensures "" !in OwnParts(ContentFrom(extracts, ""), p, 0, world)
  {
    var content := ContentFrom(extracts, "");
    ContentKeepsStream(extracts, "");
    PicturesInPlace(content, Saver(world, p));
    RenderOwn(content, p, 0, world);
  }

  lemma {:induction false} JoinConcat(sep: string, a: seq<string>, b: seq<string>)
    requires a != [] && b != []
    ensures Join(sep, a + b) == Join(sep, a) + sep + Join(sep, b)
  {
    assert (a + b)[1..] == a[1..] + b;
    if |a| == 1 {
      assert a[1..] + b == b;
    } else {
      JoinConcat(sep, a[1..], b);
    }
  }

  lemma JoinNonEmpty(sep: string, a: seq<string>)
    requires a != [] && "" !in a
    ensures Join(sep, a) != ""
  {
    assert a[0] in a;
  }

  // Joining a group first, unless it is empty, makes no difference.
  lemma JoinGroup(sep: string, texts: seq<string>, all: seq<string>, parts: seq<string>)
    requires Join(sep, texts) == Join(sep, all) && (texts == [] <==> all == []) && "" !in parts
    ensures var grown := AddText(texts, Join(sep, parts));
      Join(sep, grown) == Join(sep, all + parts) && (grown == [] <==> all + parts == [])
  {
    if parts == [] {
      assert all + [] == all;
    } else {
      JoinNonEmpty(sep, parts);
      if texts == [] {
        assert [] + parts == parts && [] + [Join(sep, parts)] == [Join(sep, parts)];
      } else {
        JoinConcat(sep, all, parts);
        JoinConcat(sep, texts, [Join(sep, parts)]);
      }
    }
  }

  // The text is all parts of all pages that load, joined in page order, each picture's link in its own place, for
  // every order in which the workers finish; pictures that cannot be saved or uploaded are left out.
  lemma {:induction false} TextIsAllParts(pages: seq<seq<Extract>>, world: World)
    requires InPlaceOnPages(pages, world)
    ensures Join("\n\n", PageTexts(pages, world)) == Join("\n\n", DocumentParts(pages, world))
    ensures PageTexts(pages, world) == [] <==> DocumentParts(pages, world) == []
  {
    if pages != [] {
      var p := |pages| - 1;
      TextIsAllParts(pages[..p], world);
      if world.loads(p) {
        PageTextIsOwn(pages[p], p, world);
        JoinGroup("\n\n", PageTexts(pages[..p], world), DocumentParts(pages[..p], world),
          OwnParts(ContentFrom(pages[p], ""), p, 0, world));
      } else {
        assert DocumentParts(pages, world) == DocumentParts(pages[..p], world);
      }
    }
  }

  // Every page loads, and every picture on it is saved and uploaded.
  ghost predicate NothingFails(pages: seq<seq<Extract>>, world: World) {
    forall p: nat :: p < |pages| ==> world.loads(p) && PicturesGo(ContentFrom(pages[p], ""), p, world)
  }

  ghost predicate PicturesGo(content: seq<Content>, p: nat, world: World) {
    forall k: nat :: k < ImageCount(content) ==>
      world.save(p, k).Some? && world.upload(world.save(p, k).value).Some?
  }

  // Then no page is missing, and every picture has its link in its own place.
  lemma NothingFailsInPlace(pages: seq<seq<Extract>>, world: World)
    requires NothingFails(pages, world)
    ensures InPlaceOnPages(pages, world)
    ensures forall p: nat, k: nat :: p < |pages| && k < ImageCount(ContentFrom(pages[p], "")) ==>
      |PictureLink(p, k, world)| == 1
  {
    forall p: nat | p < |pages| && world.loads(p)
      ensures InPlace(ContentFrom(pages[p], ""), Saver(world, p))
    {
      var content := ContentFrom(pages[p], "");
      assert PicturesGo(content, p, world);
      NoGapInPlace(content, Saver(world, p));
    }
    forall p: nat, k: nat | p < |pages| && k < ImageCount(ContentFrom(pages[p], ""))
      ensures |PictureLink(p, k, world)| == 1
    {
      assert PicturesGo(ContentFrom(pages[p], ""), p, world);
    }
  }

  // ---------- Nothing lost, nothing repeated ----------

  function DocumentContent(pages: seq<seq<Extract>>): seq<Content> {
    if pages == [] then []
    else DocumentContent(pages[..|pages| - 1]) + ContentFrom(pages[|pages| - 1], "")
  }

  function Concat(pages: seq<seq<Extract>>): seq<Extract> {
    if pages == [] then [] else Concat(pages[..|pages| - 1]) + pages[|pages| - 1]
  }

  lemma {:induction false} SelectAppend(paras: seq<Paragraph>, a: seq<nat>, b: seq<nat>)
    ensures Select(paras, a + b) == Select(paras, a) + Select(paras, b)
  {
    if b == [] {
      assert a + b == a;
    } else {
      SelectAppend(paras, a, b[..|b| - 1]);
      assert (a + b)[..|a + b| - 1] == a + b[..|b| - 1];
    }
  }

  lemma {:induction false} SelectRange(paras: seq<Paragraph>, k: nat)
    requires k <= |paras|
    ensures Select(paras, Range(0, k)) == ReadAll(paras[..k])
  {
    if k > 0 {
      SelectRange(paras, k - 1);
      RangeLast(k - 1);
      SelectLast(paras, Range(0, k - 1), k - 1);
      ReadAllNext(paras, k - 1);
    }
  }

  lemma RangeLast(k: nat)
    ensures Range(0, k + 1) == Range(0, k) + [k]
  {
  }

  lemma SelectLast(paras: seq<Paragraph>, front: seq<nat>, i: nat)
    requires i < |paras|
    ensures Select(paras, front + [i]) == Select(paras, front) + [ReadParagraph(paras[i])]
  {
    assert (front + [i])[..|front|] == front;
  }

  lemma ReadAllNext(paras: seq<Paragraph>, k: nat)
    requires k < |paras|
    ensures ReadAll(paras[..k + 1]) == ReadAll(paras[..k]) + [ReadParagraph(paras[k])]
  {
  }

  lemma {:induction false} StreamAppend(a: seq<Extract>, b: seq<Extract>)
    ensures Stream(a + b) == Stream(a) + Stream(b)
  {
    if a == [] {
      assert a + b == b;
    } else {
      StreamAppend(a[1..], b);
      assert (a + b)[1..] == a[1..] + b;
      Regroup(Chars(a[0].text) + PictureStream(a[0].image), Stream(a[1..]), [], Stream(b));
    }
  }

  lemma ContentMore(content: seq<Content>, before: seq<Extract>, page: seq<Extract>)
    requires ContentStream(content) == Stream(before)
    ensures ContentStream(content + ContentFrom(page, "")) == Stream(before + page)
  {
    var pageContent := ContentFrom(page, "");
    assert ContentStream(pageContent) == Stream(page) by {
      ContentKeepsStream(page, "");
      assert Chars("") + Stream(page) == Stream(page);
    }
    assert ContentStream(content + pageContent) == ContentStream(content) + ContentStream(pageContent) by {
      ContentStreamAppend(content, pageContent);
    }
    assert Stream(before + page) == Stream(before) + Stream(page) by {
      StreamAppend(before, page);
    }
  }

  lemma {:induction false} ContentIsStream(pages: seq<seq<Extract>>)
    ensures ContentStream(DocumentContent(pages)) == Stream(Concat(pages))
  {
    if pages != [] {
      var p := |pages| - 1;
      ContentIsStream(pages[..p]);
      ContentMore(DocumentContent(pages[..p]), Concat(pages[..p]), pages[p]);
    }
  }

  lemma {:induction false} ConcatIsRun(paras: seq<Paragraph>, toPage: nat)
    ensures Concat(PageList(paras, toPage)) ==
      Select(paras, Range(0, CountBefore(PageNumbers(paras), toPage, |paras|)))
  {
    var numbers := PageNumbers(paras);
    if toPage == 0 {
      NoneBefore(numbers, |numbers|);
    } else {
      var p: nat := toPage - 1;
      var mid, hi := CountBefore(numbers, p, |numbers|), CountBefore(numbers, toPage, |numbers|);
      ConcatIsRun(paras, p);
      assert PageList(paras, toPage)[..p] == PageList(paras, p);
      PageNumbersAscend(paras);
      PageIsRun(numbers, p, |numbers|);
      RangeJoin(0, mid, hi);
      SelectAppend(paras, Range(0, mid), Range(mid, hi));
    }
  }

  // The content of the processed pages is the text and pictures of the first k paragraphs, every one once and in
  // order, k counting the paragraphs on pages below the limit.
  lemma ContentIsInitialRun(paras: seq<Paragraph>, toPage: nat)
    ensures ContentStream(DocumentContent(PageList(paras, toPage))) ==
      RawStream(paras[..CountBefore(PageNumbers(paras), toPage, |paras|)])
  {
    ContentIsStream(PageList(paras, toPage));
    ConcatIsRun(paras, toPage);
    SelectRange(paras, CountBefore(PageNumbers(paras), toPage, |paras|));
    StreamIsRaw(paras[..CountBefore(PageNumbers(paras), toPage, |paras|)]);
  }
}
