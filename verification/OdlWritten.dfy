// Image links from the Markdown as it is written: how a link may spell an image, and what becomes of each link
// (opendataloader_parser.py).
module OdlWritten {
  import opened Wrappers
  import opened Text
  import opened OdlNames
  import opened OdlAliases
  import opened OdlRewrite

  // ---------- Spellings of an image ----------

  // The file name of a path: all of it, or what follows its last slash.
  ghost predicate HasName(path: string, name: string) {
    '/' !in name && (path == name || exists dir :: path == dir + "/" + name)
  }

  lemma {:induction false} NameSplits(s: string) returns (dir: string)
    ensures s == BaseName(s) || s == dir + "/" + BaseName(s)
    ensures '/' !in BaseName(s)
  {
    if s == "" || s[|s| - 1] == '/' {
      dir := if s == "" then "" else s[..|s| - 1];
    } else {
      dir := NameSplits(s[..|s| - 1]);
      assert s == s[..|s| - 1] + [s[|s| - 1]];
    }
  }

  lemma NameIs(path: string, name: string)
    ensures HasName(path, name) <==> BaseName(path) == name
  {
    if HasName(path, name) {
      BaseNameOf("", name);
      if path != name {
        var dir :| path == dir + "/" + name;
        BaseNameOf(dir, name);
      }
    }
    if BaseName(path) == name {
      var dir := NameSplits(path);
    }
  }

  // Every way a link may name an image: its path, its file name, or that in the directory images, bare or in angle
  // brackets, these escaped or not.
  predicate Spells(url: string, path: string, name: string) {
    IsSpelling(url, path) || IsSpelling(url, name) || IsSpelling(url, "images/" + name)
  }

  predicate IsSpelling(url: string, key: string) {
    url == key || url == "<" + key + ">" || url == "&lt;" + key + "&gt;"
  }

  // No other image has the name.
  ghost predicate OnlyOne(images: seq<string>, path: string, name: string) {
    path in images && HasName(path, name) &&
    forall i :: 0 <= i < |images| && images[i] != path ==> !HasName(images[i], name)
  }

  lemma {:induction false} OnlyOneAlias(env: Env, images: seq<string>, path: string, name: string, key: string)
    requires OdlAliases.Valid(env) && AllPlain(images) && OnlyOne(images, path, name)
    requires key in {path, name, "images/" + name}
    ensures AliasOf(env, images, key) == Some(path)
    decreases |images|
  {
    var front, last := images[..|images| - 1], images[|images| - 1];
    assert images == front + [last];
    PlainKeys(env, last);
    NameIs(last, name);
    NameIs(path, name);
    if last != path {
      assert path in front;
      OtherKeys(last, name, path, key);
      OnlyOneAlias(env, front, path, name, key);
    }
  }

  lemma SpelledName(path: string, key: string)
    requires key in {path, BaseName(path), "images/" + BaseName(path)}
    ensures BaseName(key) == BaseName(path)
  {
    hide BaseName;
    var dir := NameSplits(path);
    BaseNameOf("images", BaseName(path));
    assert "images/" + BaseName(path) == "images" + "/" + BaseName(path);
  }

  lemma OtherKeys(other: string, name: string, path: string, key: string)
    requires BaseName(path) == name && BaseName(other) != name && key in {path, name, "images/" + name}
    ensures key !in Spellings(other)
  {
    hide BaseName;
    SpelledName(path, key);
    if key in Spellings(other) {
      SpelledName(other, key);
    }
  }

  // However a link spells an image whose name no other image has, it is resolved to that image.
  lemma SpellingResolves(env: Env, images: seq<string>, aliases: map<string, string>, path: string, name: string,
      url: string)
    requires OdlAliases.Valid(env) && AllPlain(images) && IsAliasMap(env, images, aliases)
    requires OnlyOne(images, path, name) && Spells(url, path, name)
    requires !("data:" <= path) && !("data:" <= name)
    ensures Resolve(env, aliases, url) == Some(path)
  {
    hide OnlyOne, IsPlain, AliasOf;
    var key := SpelledKey(env, images, path, name, url);
    OnlyOneAlias(env, images, path, name, key);
    assert Aliased(env, images, aliases, key);
    assert "images/" + name != "" && ("images/" + name)[0] == 'i';
  }

  lemma SpelledKey(env: Env, images: seq<string>, path: string, name: string, url: string) returns (key: string)
    requires OdlAliases.Valid(env) && AllPlain(images) && OnlyOne(images, path, name) && Spells(url, path, name)
    ensures key in {path, name, "images/" + name} && key != "" && env.normalize(url) == key
  {
    hide IsSpelling, IsPlain, BaseName, MeansItself;
    NameIs(path, name);
    PlainBase(path);
    assert InImages(name) == "images/" + name;
    key := if IsSpelling(url, path) then path else if IsSpelling(url, name) then name else "images/" + name;
    assert MeansItself(env, key);
    KeyMeans(env, key, url);
    PlainNotEmpty(key);
  }

  lemma KeyMeans(env: Env, key: string, url: string)
    requires MeansItself(env, key) && IsSpelling(url, key)
    ensures env.normalize(url) == key
  {
  }

  lemma PlainNotEmpty(s: string)
    requires IsPlain(s)
    ensures s != ""
  {
  }

  // What may stand around a name: angle brackets, quotation marks, and the current directory.
  predicate IsWrap(open: string, quoted: string, dot: string, close: string) {
    ((open == "" && close == "") || (open == "<" && close == ">")) && quoted in {"", "\"", "'"} && dot in {"", "./"}
  }

  predicate IsBare(name: string) {
    && name != "" && !("./" <= name)
    && forall i :: 0 <= i < |name| ==> !IsWhite(name[i]) && name[i] !in {'&', '<', '>', '"', '\''}
  }

  // White space, brackets, quotation marks and "./" around a name go, and backslashes become slashes.
  lemma NameNormalized(unescape: string -> string, before: string, open: string, quoted: string, dot: string,
      name: string, close: string, after: string)
    requires Unescapes(unescape) && AllWhite(before) && AllWhite(after) && IsWrap(open, quoted, dot, close)
    requires IsBare(name)
    ensures var r := NormalizeUrl(unescape, before + (open + (quoted + (dot + name) + quoted) + close) + after);
      |r| == |name| && forall i :: 0 <= i < |name| ==> r[i] == if name[i] == '\\' then '/' else name[i]
  {
    hide Strip, Replace, IsWhite, Unwrap, IsBare, IsWrap, AllWhite, NormalizeUrl;
    var bare := open + (quoted + (dot + name) + quoted) + close;
    UnwrappedName(open, quoted, dot, name, close);
    WhiteIn(before);
    WhiteIn(after);
    StripPadded(before, bare, after, WHITESPACE);
    assert unescape(bare) == bare;
    NormalizeIs(unescape, before + bare + after, bare);
    SlashedIs(name);
  }

  lemma SlashedIs(name: string)
    ensures var r := Slashed(name);
      |r| == |name| && forall i :: 0 <= i < |name| ==> r[i] == if name[i] == '\\' then '/' else name[i]
  {
  }

  lemma UnwrappedName(open: string, quoted: string, dot: string, name: string, close: string)
    requires IsWrap(open, quoted, dot, close) && IsBare(name)
    ensures var bare := open + (quoted + (dot + name) + quoted) + close; InkEnds(bare) && Unwrap(bare) == Slashed(name)
  {
    hide Strip, Slashed, IsBare;
    var path := dot + name;
    BareEnds(name, dot);
    MarkedEnds(quoted, path);
    WrappedEnds(open, quoted + path + quoted, close);
    UnwrapWrapped(open, quoted + path + quoted, close);
    Unquoted(quoted, path);
    assert (if "./" <= path then path[2..] else path) == name;
  }

  // The ends of a name and of what is around it.
  predicate InkEnds(s: string) {
    s != "" && s[0] !in WHITESPACE && s[|s| - 1] !in WHITESPACE && '&' !in s
  }

  predicate NoBrackets(s: string) {
    s != "" && s[0] !in {'<', '>'} && s[|s| - 1] !in {'<', '>'}
  }

  predicate NoQuotes(s: string) {
    s != "" && s[0] !in {'"', '\''} && s[|s| - 1] !in {'"', '\''}
  }

  lemma BareEnds(name: string, dot: string)
    requires IsBare(name) && dot in {"", "./"}
    ensures InkEnds(dot + name) && NoBrackets(dot + name) && NoQuotes(dot + name)
    ensures "./" <= dot + name <==> dot == "./"
    ensures (dot + name)[|dot|..] == name
  {
    WhitespaceIs(name[0]);
    WhitespaceIs(name[|name| - 1]);
    assert dot == "" ==> dot + name == name;
    assert '&' !in name;
  }

  lemma MarkedEnds(quoted: string, path: string)
    requires quoted in {"", "\"", "'"} && InkEnds(path) && NoBrackets(path)
    ensures InkEnds(quoted + path + quoted) && NoBrackets(quoted + path + quoted)
  {
    assert quoted == "" ==> quoted + path + quoted == path;
  }

  lemma WrappedEnds(open: string, marked: string, close: string)
    requires (open == "" && close == "") || (open == "<" && close == ">")
    requires InkEnds(marked)
    ensures InkEnds(open + marked + close)
  {
    assert open == "" ==> open + marked + close == marked;
  }

  lemma UnwrapWrapped(open: string, marked: string, close: string)
    requires (open == "" && close == "") || (open == "<" && close == ">")
    requires InkEnds(marked) && NoBrackets(marked)
    ensures var bare := open + marked + close;
      Strip(Strip(Strip(bare, WHITESPACE), {'<', '>'}), WHITESPACE) == marked
  {
    hide Strip;
    var bare := open + marked + close;
    WrappedEnds(open, marked, close);
    StripNone(bare, WHITESPACE);
    StripPadded(open, marked, close, {'<', '>'});
    StripNone(marked, WHITESPACE);
  }

  lemma Unquoted(quoted: string, path: string)
    requires quoted in {"", "\"", "'"} && NoQuotes(path)
    ensures Strip(Strip(quoted + path + quoted, {'"'}), {'\''}) == path
  {
    hide Strip;
    var marked := quoted + path + quoted;
    if quoted == "'" {
      StripNone(marked, {'"'});
      StripPadded(quoted, path, quoted, {'\''});
    } else {
      StripPadded(quoted, path, quoted, {'"'});
      StripNone(path, {'\''});
    }
  }

  // ---------- A document and its links ----------

  // Text, and a link after it: its alternative text, and the image with white space around it and perhaps a title.
  datatype Segment = Segment(text: string, alt: string, pad: string, token: string, tail: string)

  predicate OpensNoLink(text: string) {
    forall i :: 0 <= i < |text| - 1 ==> !BeginsLink(text, i)
  }

  predicate BeginsLink(text: string, i: nat)
    requires i + 1 < |text|
  {
    text[i] == '!' && text[i + 1] == '['
  }

  predicate NoWhite(s: string) {
    forall i :: 0 <= i < |s| ==> !IsWhite(s[i])
  }

  predicate IsSegment(g: Segment) {
    && OpensNoLink(g.text) && ']' !in g.alt
    && AllWhite(g.pad) && g.token != "" && NoWhite(g.token) && (g.tail == "" || IsWhite(g.tail[0]))
    && ')' !in g.pad && ')' !in g.token && ')' !in g.tail
  }

  predicate AreSegments(segments: seq<Segment>) {
    forall i :: 0 <= i < |segments| ==> IsSegment(segments[i])
  }

  function Markdown(segments: seq<Segment>, last: string): string {
    if segments == [] then last
    else
      var g := segments[0];
      g.text + ("![" + g.alt + "](" + (g.pad + g.token + g.tail) + ")") + Markdown(segments[1..], last)
  }

  // The same with every link that can be resolved to the stored image and nothing else.
  function WithImages(resolve: string -> Option<string>, segments: seq<Segment>, last: string): string {
    if segments == [] then last
    else
      var g := segments[0];
      var url := match resolve(g.token) { case None => g.pad + g.token + g.tail case Some(name) => name };
      g.text + ("![" + g.alt + "](" + url + ")") + WithImages(resolve, segments[1..], last)
  }

  lemma {:induction false} TokenLengthOf(token: string, tail: string)
    requires NoWhite(token) && (tail == "" || IsWhite(tail[0]))
    ensures TokenLength(token + tail, WHITESPACE) == |token|
  {
    if token == "" {
      assert token + tail == tail;
      if tail != "" {
        WhitespaceIs(tail[0]);
      }
    } else {
      WhitespaceIs(token[0]);
      assert (token + tail)[1..] == token[1..] + tail;
      TokenLengthOf(token[1..], tail);
    }
  }

  // The image is the first word of the link.
  lemma FirstTokenIs(pad: string, token: string, tail: string)
    requires AllWhite(pad) && token != "" && NoWhite(token) && (tail == "" || IsWhite(tail[0]))
    ensures FirstToken(pad + token + tail) == Some(token)
  {
    var t := token + tail;
    WhiteIn(pad);
    WhitespaceIs(token[0]);
    WhitespaceIs(token[|token| - 1]);
    Assoc(pad, token, tail);
    StripLeftOf(pad, t, WHITESPACE);
    StripRightSplits(t, WHITESPACE);
    var r := StripRight(t, WHITESPACE);
    assert t[|token| - 1] == token[|token| - 1];
    assert |r| >= |token|;
    var rest := tail[..|r| - |token|];
    assert r == token + rest;
    TokenLengthOf(token, rest);
    assert r[..|token|] == token;
  }

  lemma {:induction false} NoLinksIn(a: string, b: string)
    requires OpensNoLink(a) && (b == "" || b[0] != '[')
    ensures NoLinks(a, b)
  {
    if a != "" {
      var s := a + b;
      assert |a| > 1 ==> s[1] == a[1];
      assert |a| == 1 && b != "" ==> s[1] == b[0];
      assert |a| > 1 ==> !BeginsLink(a, 0);
      assert LinkAt(s).None?;
      forall i | 0 <= i < |a| - 2 ensures !BeginsLink(a[1..], i) {
        assert !BeginsLink(a, i + 1);
      }
      NoLinksIn(a[1..], b);
    }
  }

  lemma {:induction false} BlankAfterText(a: string, b: string)
    requires NoLinks(a, b)
    ensures HasBlankUrl(Parse(a + b)) <==> HasBlankUrl(Parse(b))
  {
    if a == "" {
      assert a + b == b;
    } else {
      BlankAfterText(a[1..], b);
      assert a + b == [a[0]] + (a[1..] + b);
      ParseChar(a[0], a[1..] + b);
      BlankCons(Plain(a[0]), Parse(a[1..] + b));
    }
  }

  lemma BlankCons(p: Piece, rest: seq<Piece>)
    ensures HasBlankUrl([p] + rest) <==> (p.Image? && FirstToken(p.url).None?) || HasBlankUrl(rest)
  {
    assert ([p] + rest)[1..] == rest;
  }

  lemma LinkIs(alt: string, url: string)
    ensures "![" + LinkText(alt, url) == "![" + alt + "](" + url + ")"
  {
  }

  lemma PrintedLink(alt: string, url: string)
    ensures PrintPiece(Image(alt, url)) == "![" + LinkText(alt, url)
  {
  }

  // One link, whatever follows it.
  lemma LinkRewritten(resolve: string -> Option<string>, alt: string, url: string, token: string, rest: string)
    requires ']' !in alt && ')' !in url && url != "" && FirstToken(url) == Some(token)
    ensures var s := "![" + alt + "](" + url + ")" + rest;
      && Rewritten(resolve, s) == "![" + alt + "](" +
           (match resolve(token) { case None => url case Some(name) => name }) + ")" + Rewritten(resolve, rest)
      && (HasBlankUrl(Parse(s)) <==> HasBlankUrl(Parse(rest)))
  {
    hide Parse, Print, PrintPiece, LinkText, MapPieces, HasBlankUrl, FirstToken;
    LinkIs(alt, url);
    ParseLink(alt, url, rest);
    MapCons(resolve, Image(alt, url), Parse(rest));
    BlankCons(Image(alt, url), Parse(rest));
    PrintedLink(alt, Resolved(resolve, url));
    LinkIs(alt, Resolved(resolve, url));
  }

  // The document with every link replaced: the text around the links stays as it is, and no link is lost.
  lemma DocumentRewritten(resolve: string -> Option<string>, segments: seq<Segment>, last: string)
    requires AreSegments(segments) && OpensNoLink(last)
    ensures Rewrite(resolve, Markdown(segments, last)) == Some(WithImages(resolve, segments, last))
  {
    RewrittenIs(resolve, segments, last);
  }

  lemma {:induction false} RewrittenIs(resolve: string -> Option<string>, segments: seq<Segment>, last: string)
    requires AreSegments(segments) && OpensNoLink(last)
    ensures Rewritten(resolve, Markdown(segments, last)) == WithImages(resolve, segments, last)
    ensures !HasBlankUrl(Parse(Markdown(segments, last)))
  {
    hide Rewritten, Parse, HasBlankUrl, OpensNoLink, FirstToken;
    if segments == [] {
      NoLinksIn(last, "");
      PrefixKept(resolve, last, "");
      BlankAfterText(last, "");
      NothingRewritten(resolve);
      assert last + "" == last;
    } else {
      var g, after := segments[0], Markdown(segments[1..], last);
      var url := g.pad + g.token + g.tail;
      var link := "![" + g.alt + "](" + url + ")";
      assert IsSegment(g);
      RewrittenIs(resolve, segments[1..], last);
      FirstTokenIs(g.pad, g.token, g.tail);
      LinkRewritten(resolve, g.alt, url, g.token, after);
      TextBefore(resolve, g.text, link, after);
    }
  }

  lemma NothingRewritten(resolve: string -> Option<string>)
    ensures Rewritten(resolve, "") == "" && !HasBlankUrl(Parse(""))
  {
  }

  lemma TextBefore(resolve: string -> Option<string>, text: string, link: string, after: string)
    requires OpensNoLink(text) && link != "" && link[0] == '!'
    ensures Rewritten(resolve, text + link + after) == text + Rewritten(resolve, link + after)
    ensures HasBlankUrl(Parse(text + link + after)) <==> HasBlankUrl(Parse(link + after))
  {
    hide Rewritten, Parse, HasBlankUrl, OpensNoLink;
    Assoc(text, link, after);
    NoLinksIn(text, link + after);
    PrefixKept(resolve, text, link + after);
    BlankAfterText(text, link + after);
  }

  // ---------- The choice by number ----------

  ghost predicate IsAscending(items: seq<(nat, string)>) {
    forall i, j :: 0 <= i < j < |items| ==> items[i].0 <= items[j].0
  }

  lemma {:induction false} InsertAscends(sorted: seq<(nat, string)>, x: (nat, string))
    requires IsAscending(sorted)
    ensures IsAscending(Insert(sorted, x))
  {
    if sorted != [] && sorted[|sorted| - 1].0 > x.0 {
      var front, last := sorted[..|sorted| - 1], sorted[|sorted| - 1];
      InsertAscends(front, x);
      InsertBounded(front, x, last.0);
    }
  }

  lemma InsertBounded(front: seq<(nat, string)>, x: (nat, string), bound: nat)
    requires x.0 <= bound && forall i :: 0 <= i < |front| ==> front[i].0 <= bound
    ensures forall i :: 0 <= i < |Insert(front, x)| ==> Insert(front, x)[i].0 <= bound
  {
    var r := Insert(front, x);
    forall i | 0 <= i < |r| ensures r[i].0 <= bound {
      assert r[i] in multiset(r);
      assert r[i] in multiset(front) || r[i] == x;
    }
  }

  lemma {:induction false} SortAscends(items: seq<(nat, string)>)
    ensures IsAscending(SortByNumber(items))
  {
    if items != [] {
      SortAscends(items[..|items| - 1]);
      InsertAscends(SortByNumber(items[..|items| - 1]), items[|items| - 1]);
    }
  }

  // A stored image with the number of the link, if there is one; otherwise, counting from one, that of the numbered
  // images in ascending order.
  lemma NumberChooses(env: Env, refs: seq<string>, number: nat) returns (sorted: seq<(nat, string)>)
    ensures multiset(sorted) == multiset(Numbered(env, refs)) && IsAscending(sorted)
    ensures var r := ByNumber(SortByNumber(Numbered(env, refs)), number);
      if exists ref :: ref in refs && env.fileNumber(BaseName(ref)) == Some(number) then
        r.Some? && r.value in refs && env.fileNumber(BaseName(r.value)) == Some(number)
      else if 1 <= number <= |sorted| then r == Some(sorted[number - 1].1)
      else r == None
  {
    sorted := SortByNumber(Numbered(env, refs));
    SortAscends(Numbered(env, refs));
    FirstNumberedItem(sorted, number);
    ByNumberStored(env, refs, number);
    forall x: (nat, string) ensures x in sorted <==> x in Numbered(env, refs) {
      assert x in sorted <==> x in multiset(sorted);
    }
    if ref :| ref in refs && env.fileNumber(BaseName(ref)) == Some(number) {
      NumberedHas(env, refs, ref, number);
      assert (number, ref) in sorted;
      NumberedItems(env, refs, (number, FirstNumbered(sorted, number).value));
    } else if FirstNumbered(sorted, number).Some? {
      NumberedItems(env, refs, (number, FirstNumbered(sorted, number).value));
    }
  }

  lemma {:induction false} NumberedHas(env: Env, refs: seq<string>, ref: string, number: nat)
    requires ref in refs && env.fileNumber(BaseName(ref)) == Some(number)
    ensures (number, ref) in Numbered(env, refs)
  {
    var front, last := refs[..|refs| - 1], refs[|refs| - 1];
    assert refs == front + [last];
    if ref in front {
      NumberedHas(env, front, ref, number);
    }
  }
}
