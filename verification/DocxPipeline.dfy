// Extracting the pages of a Word document in workers that finish in any order, and putting the results back
// together (docx_parser.py).
module DocxPipeline {
  import opened Wrappers
  import opened Text
  import opened DocxPages

  // ---------- One page: text and pictures in paragraph order ----------

  datatype Content = TextPart(text: string) | ImagePart(image: nat)

  function ReplaceIdeographicSpace(s: string): string {
    seq(|s|, i requires 0 <= i < |s| => if s[i] == '\U{3000}' then ' ' else s[i])
  }

  // What a paragraph contributes: its cleaned text with a line end, "" when it has none, and its picture.
  datatype Extract = Extract(text: string, image: Option<nat>)

  function ReadParagraph(p: Paragraph): Extract {
    var text := Strip(p.text, WHITESPACE);
    Extract(if text == "" then "" else Strip(ReplaceIdeographicSpace(text), WHITESPACE) + "\n", p.image)
  }

  function ReadAll(paras: seq<Paragraph>): seq<Extract> {
    seq(|paras|, i requires 0 <= i < |paras| => ReadParagraph(paras[i]))
  }

  // The content sequence of a page, `current` being the text gathered since the last picture.
  function ContentFrom(paras: seq<Extract>, current: string): seq<Content> {
    if paras == [] then (if current == "" then [] else [TextPart(current)])
    else
      var text := current + paras[0].text;
      match paras[0].image
      case None => ContentFrom(paras[1..], text)
      case Some(image) => Flushed(text, image) + ContentFrom(paras[1..], "")
  }

  function Flushed(text: string, image: nat): seq<Content> {
    if text == "" then [ImagePart(image)] else [TextPart(text), ImagePart(image)]
  }

  // What a reader meets: characters and pictures.
  datatype Token = Ch(c: char) | Im(image: nat)

  function Chars(s: string): seq<Token> {
    seq(|s|, i requires 0 <= i < |s| => Ch(s[i]))
  }

  function Stream(paras: seq<Extract>): seq<Token> {
    if paras == [] then []
    else Chars(paras[0].text) + PictureStream(paras[0].image) + Stream(paras[1..])
  }

  function PictureStream(image: Option<nat>): seq<Token> {
    match image { case None => [] case Some(i) => [Im(i)] }
  }

  // The text of a raw paragraph from its first to its last character that is not white space, an ideographic space read
  // as a space, and one line feed after it; nothing if it is white space.
  function ShownText(text: string): string {
    if AllWhite(text) then ""
    else
      InkOrder(text);
      var lo, hi := InkStart(text), InkEnd(text);
      seq(hi - lo, i requires 0 <= i < hi - lo => if text[lo + i] == '\U{3000}' then ' ' else text[lo + i]) + ['\n']
  }

  // The shown texts of raw paragraphs, each followed by the paragraph's picture.
  function RawStream(paras: seq<Paragraph>): seq<Token> {
    if paras == [] then []
    else
      var shown := ShownText(paras[0].text);
      seq(|shown|, i requires 0 <= i < |shown| => Ch(shown[i])) +
      (if paras[0].image.Some? then [Im(paras[0].image.value)] else []) + RawStream(paras[1..])
  }

  lemma ReadsShownText(p: Paragraph)
    ensures ReadParagraph(p) == Extract(ShownText(p.text), p.image)
  {
    hide AllWhite, Strip, ReplaceIdeographicSpace, IsWhite;
    if AllWhite(p.text) {
      StripWhite(p.text);
    } else {
      StripInk(p.text);
      ReplacedRun(p.text, InkStart(p.text), InkEnd(p.text));
    }
  }

  lemma ReplacedRun(s: string, lo: nat, hi: nat)
    requires lo < hi <= |s| && !IsWhite(s[lo]) && !IsWhite(s[hi - 1])
    ensures Strip(ReplaceIdeographicSpace(s[lo..hi]), WHITESPACE) ==
      seq(hi - lo, i requires 0 <= i < hi - lo => if s[lo + i] == '\U{3000}' then ' ' else s[lo + i])
  {
    hide Strip;
    var replaced := ReplaceIdeographicSpace(s[lo..hi]);
    WhitespaceIs(s[lo]);
    WhitespaceIs(s[hi - 1]);
    StripNothing(replaced);
    assert replaced == seq(hi - lo, i requires 0 <= i < hi - lo => if s[lo + i] == '\U{3000}' then ' ' else s[lo + i]);
  }

  lemma StripNothing(s: string)
    requires s != "" && s[0] !in WHITESPACE && s[|s| - 1] !in WHITESPACE
    ensures Strip(s, WHITESPACE) == s
  {
  }

  // The extracts of paragraphs read as the raw paragraphs do.
  lemma {:induction false} StreamIsRaw(paras: seq<Paragraph>)
    ensures Stream(ReadAll(paras)) == RawStream(paras)
  {
    hide ReadParagraph, ShownText;
    if paras != [] {
      ReadsShownText(paras[0]);
      StreamIsRaw(paras[1..]);
      assert ReadAll(paras)[1..] == ReadAll(paras[1..]);
    }
  }

  function PartStream(c: Content): seq<Token> {
    match c case TextPart(text) => Chars(text) case ImagePart(image) => [Im(image)]
  }

  function ContentStream(content: seq<Content>): seq<Token> {
    if content == [] then [] else PartStream(content[0]) + ContentStream(content[1..])
  }

  // Text parts are never empty and never adjacent.
  ghost predicate Alternates(content: seq<Content>) {
    forall i :: 0 <= i < |content| && content[i].TextPart? ==>
      content[i].text != "" && (i > 0 ==> content[i - 1].ImagePart?)
  }

  lemma CharsAppend(a: string, b: string)
    ensures Chars(a + b) == Chars(a) + Chars(b)
  {
  }

  lemma {:induction false} ContentStreamAppend(a: seq<Content>, b: seq<Content>)
    ensures ContentStream(a + b) == ContentStream(a) + ContentStream(b)
  {
    if a == [] {
      assert a + b == b;
    } else {
      ContentStreamAppend(a[1..], b);
      ConcatTail(a, b);
      Assoc(PartStream(a[0]), ContentStream(a[1..]), ContentStream(b));
    }
  }

  // A page's content is exactly its paragraphs' text and pictures, in paragraph order.
  lemma {:induction false} ContentKeepsStream(paras: seq<Extract>, current: string)
    ensures ContentStream(ContentFrom(paras, current)) == Chars(current) + Stream(paras)
    ensures Alternates(ContentFrom(paras, current))
    decreases paras
  {
    if paras == [] {
      if current != "" {
        assert ContentStream([TextPart(current)]) == Chars(current) + ContentStream([]);
      }
    } else {
      var e, rest := paras[0], paras[1..];
      var text := current + e.text;
      CharsAppend(current, e.text);
      if e.image.None? {
        ContentKeepsStream(rest, text);
        assert Chars(e.text) + [] == Chars(e.text);
      } else {
        ContentKeepsStream(rest, "");
        FlushKeepsStream(text, e.image.value, ContentFrom(rest, ""));
        assert Chars("") + Stream(rest) == Stream(rest);
      }
      Regroup(Chars(current), Chars(e.text), PictureStream(e.image), Stream(rest));
    }
  }

  lemma Regroup<T>(a: seq<T>, b: seq<T>, c: seq<T>, d: seq<T>)
    ensures (a + b) + c + d == a + (b + c + d)
    ensures (a + b) + d == a + (b + d)
  {
  }

  lemma FlushKeepsStream(text: string, image: nat, rest: seq<Content>)
    requires Alternates(rest)
    ensures ContentStream(Flushed(text, image) + rest) == Chars(text) + [Im(image)] + ContentStream(rest)
    ensures Alternates(Flushed(text, image) + rest)
  {
    ContentStreamAppend(Flushed(text, image), rest);
    assert ContentStream([ImagePart(image)]) == [Im(image)] + ContentStream([]);
    if text != "" {
      assert Flushed(text, image)[1..] == [ImagePart(image)];
    }
    assert ContentStream(Flushed(text, image)) == Chars(text) + [Im(image)];
  }

  lemma ContentIsRaw(paras: seq<Paragraph>)
    ensures var content := ContentFrom(ReadAll(paras), "");
      ContentStream(content) == RawStream(paras) && Alternates(content)
  {
    hide ContentFrom, ReadAll, Stream, RawStream, ContentStream, Alternates;
    ContentKeepsStream(ReadAll(paras), "");
    StreamIsRaw(paras);
    assert Chars("") + RawStream(paras) == RawStream(paras);
  }

  lemma ContentNext(all: seq<Extract>, n: nat, current: string, done: seq<Content>)
    requires n < |all|
    ensures var text := current + all[n].text;
      done + ContentFrom(all[n..], current) ==
        match all[n].image {
          case None => done + ContentFrom(all[n + 1..], text)
          case Some(image) => (done + Flushed(text, image)) + ContentFrom(all[n + 1..], "")
        }
  {
    assert all[n..][1..] == all[n + 1..];
  }

  // _extract_page_content_in_process, on the paragraphs of one page.
  method ExtractPageContent(paras: seq<Paragraph>) returns (content: seq<Content>)
    ensures content == ContentFrom(ReadAll(paras), "")
    ensures ContentStream(content) == RawStream(paras) && Alternates(content)
  {
    hide RawStream, ContentStream, Alternates, ReadParagraph;
    content := [];
    var currentText := "";
    ghost var all := ReadAll(paras);
    assert all[0..] == all;
    for n := 0 to |paras|
      invariant ContentFrom(all, "") == content + ContentFrom(all[n..], currentText)
    {
      ContentNext(all, n, currentText, content);
      content, currentText := ExtractParagraph(ReadParagraph(paras[n]), content, currentText);
    }
    if currentText != "" {
      content := content + [TextPart(currentText)];
    }
    ContentIsRaw(paras);
  }

  // The body of the paragraph loop.
  method ExtractParagraph(e: Extract, content: seq<Content>, current: string)
    returns (contentAfter: seq<Content>, currentAfter: string)
    ensures match e.image {
      case None => contentAfter == content && currentAfter == current + e.text
      case Some(image) => contentAfter == content + Flushed(current + e.text, image) && currentAfter == ""
    }
  {
    contentAfter, currentAfter := content, current + e.text;
    if e.image.Some? {
      if currentAfter != "" {
        contentAfter := contentAfter + [TextPart(currentAfter)];
        currentAfter := "";
      }
      contentAfter := contentAfter + [ImagePart(e.image.value)];
    }
  }

  // ---------- One worker ----------

  datatype Slot = TextSlot(text: string) | ImageSlot(path: string)
  datatype LineData = LineData(text: string, images: seq<string>, pageNum: int, content: seq<Slot>)

  function Texts(content: seq<Content>): seq<string> {
    if content == [] then []
    else if content[0].TextPart? then [content[0].text] + Texts(content[1..])
    else Texts(content[1..])
  }

  function ImageCount(content: seq<Content>): nat {
    if content == [] then 0
    else (if content[0].ImagePart? then 1 else 0) + ImageCount(content[1..])
  }

  // The files of those of the first n pictures that could be saved, in order.
  function Saved(n: nat, save: nat -> Option<string>): seq<string> {
    if n == 0 then []
    else match save(n - 1) { case None => Saved(n - 1, save) case Some(path) => Saved(n - 1, save) + [path] }
  }

  // The second pass: each picture's place takes the next saved file; places left over are dropped.
  function Slots(content: seq<Content>, files: seq<string>): seq<Slot> {
    if content == [] then []
    else match content[0] {
      case TextPart(text) => [TextSlot(text)] + Slots(content[1..], files)
      case ImagePart(_) =>
        if files == [] then Slots(content[1..], files)
        else [ImageSlot(files[0])] + Slots(content[1..], files[1..])
    }
  }

  // The result of one page, None of `save` standing for a picture that cannot be written.
  function PageLine(paras: seq<Extract>, pageNum: nat, save: nat -> Option<string>): LineData {
    var content := ContentFrom(paras, "");
    var files := Saved(ImageCount(content), save);
    LineData(Join("\n\n", Texts(content)), files, pageNum, Slots(content, files))
  }
}
