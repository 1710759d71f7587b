// Rewriting the image links of OpenDataLoader Markdown (docreader/parser/opendataloader_parser.py).
module OdlRewrite {
  import opened Wrappers
  import opened Text
  import opened OdlNames
  import opened OdlAliases

  // Markdown as the pattern ![alt](url) divides it.
  datatype Piece = Plain(c: char) | Image(alt: string, url: string)

  // A link after its "![": alternative text, URL, and the text after it.
  datatype Link = Link(alt: string, url: string, rest: string)

  // After "]": "(", a URL that is not empty, ")".
  function FindUrl(after: string): Option<(string, string)> {
    if after == "" || after[0] != '(' then None
    else match Cut(after[1..], ')') {
      case None => None
      case Some((url, rest)) => if url == "" then None else Some((url, rest))
    }
  }

  function FindLink(t: string): Option<Link> {
    match Cut(t, ']')
    case None => None
    case Some((alt, after)) =>
      match FindUrl(after) {
        case None => None
        case Some((url, rest)) => Some(Link(alt, url, rest))
      }
  }

  // The link that begins a text.
  function LinkAt(s: string): Option<Link> {
    if |s| >= 2 && s[0] == '!' && s[1] == '[' then FindLink(s[2..]) else None
  }

  lemma FindLinkParts(t: string)
    requires FindLink(t).Some?
    ensures var link := FindLink(t).value;
      && t == LinkText(link.alt, link.url) + link.rest && |link.rest| < |t|
      && ']' !in link.alt && ')' !in link.url && link.url != ""
  {
    CutParts(t, ']');
    var (alt, after) := Cut(t, ']').value;
    CutParts(after[1..], ')');
    var (url, rest) := Cut(after[1..], ')').value;
    assert after == "(" + after[1..];
    LinkConcat(alt, url, rest);
  }

  lemma LinkConcat(alt: string, url: string, rest: string)
    ensures alt + [']'] + ("(" + (url + [')'] + rest)) == LinkText(alt, url) + rest
  {
  }

  function LinkText(alt: string, url: string): string {
    alt + "](" + url + ")"
  }

  lemma FindLinkOf(alt: string, url: string, rest: string)
    requires ']' !in alt && ')' !in url && url != ""
    ensures FindLink(LinkText(alt, url) + rest) == Some(Link(alt, url, rest))
  {
    var after := "(" + (url + [')'] + rest);
    assert LinkText(alt, url) + rest == alt + [']'] + after;
    CutOf(alt, ']', after);
    assert after[1..] == url + [')'] + rest;
    CutOf(url, ')', rest);
  }

  // Matches are taken from the left and do not overlap.
  function Parse(s: string): seq<Piece>
    decreases |s|
  {
    if s == "" then []
    else match LinkAt(s) {
      case Some(link) =>
        FindLinkParts(s[2..]);
        [Image(link.alt, link.url)] + Parse(link.rest)
      case None => [Plain(s[0])] + Parse(s[1..])
    }
  }

  function PrintPiece(p: Piece): string {
    match p
    case Plain(c) => [c]
    case Image(alt, url) => "![" + LinkText(alt, url)
  }

  function Print(pieces: seq<Piece>): string {
    if pieces == [] then "" else PrintPiece(pieces[0]) + Print(pieces[1..])
  }

  // url.strip().split()[0], None where that raises IndexError.
  function FirstToken(url: string): Option<string> {
    var s := Strip(url, WHITESPACE);
    if s == "" then None else Some(s[..TokenLength(s, WHITESPACE)])
  }

  function TokenLength(s: string, blanks: set<char>): (n: nat)
    ensures n <= |s|
  {
    if s == "" || s[0] in blanks then 0 else 1 + TokenLength(s[1..], blanks)
  }

  function Resolved(resolve: string -> Option<string>, url: string): string {
    match FirstToken(url)
    case None => url
    case Some(token) =>
      match resolve(token) {
        case None => url
        case Some(name) => name
      }
  }

  function MapPiece(resolve: string -> Option<string>, p: Piece): Piece {
    if p.Image? then Image(p.alt, Resolved(resolve, p.url)) else p
  }

  function MapPieces(resolve: string -> Option<string>, pieces: seq<Piece>): seq<Piece> {
    if pieces == [] then [] else [MapPiece(resolve, pieces[0])] + MapPieces(resolve, pieces[1..])
  }

  // A link without a URL token.
  predicate HasBlankUrl(pieces: seq<Piece>) {
    pieces != [] && ((pieces[0].Image? && FirstToken(pieces[0].url).None?) || HasBlankUrl(pieces[1..]))
  }

  // The substitution; None for an exception.
  function Rewrite(resolve: string -> Option<string>, markdown: string): Option<string> {
    if HasBlankUrl(Parse(markdown)) then None else Some(Print(MapPieces(resolve, Parse(markdown))))
  }

  // ---------- Links are found again after rewriting ----------

  lemma PrintCons(p: Piece, rest: seq<Piece>)
    ensures Print([p] + rest) == PrintPiece(p) + Print(rest)
  {
    assert ([p] + rest)[1..] == rest;
  }

  // Parsing divides the text.
  lemma {:induction false} PrintParse(s: string)
    ensures Print(Parse(s)) == s
    decreases |s|
  {
    if s != "" {
      match LinkAt(s) {
        case Some(link) =>
          var t := s[2..];
          FindLinkParts(t);
          PrintParse(link.rest);
          PrintCons(Image(link.alt, link.url), Parse(link.rest));
          assert s == "![" + t;
          Assoc("![", LinkText(link.alt, link.url), link.rest);
        case None =>
          PrintParse(s[1..]);
          PrintCons(Plain(s[0]), Parse(s[1..]));
      }
    }
  }

  // A resolver whose results can stand in a link and resolve to themselves or are left alone.
  ghost predicate Settles(resolve: string -> Option<string>) {
    forall token :: resolve(token).Some? ==> IsTarget(resolve, resolve(token).value)
  }

  predicate IsTarget(resolve: string -> Option<string>, name: string) {
    && name != "" && ')' !in name && FirstToken(name) == Some(name)
    && (resolve(name) == None || resolve(name) == Some(name))
  }

  lemma ResolvedUrl(resolve: string -> Option<string>, url: string)
    requires Settles(resolve) && url != "" && ')' !in url
    ensures var r := Resolved(resolve, url);
      r != "" && ')' !in r && Resolved(resolve, r) == r && (FirstToken(url).Some? ==> FirstToken(r).Some?)
  {
    var token := FirstToken(url);
    if token.Some? && resolve(token.value).Some? {
      assert IsTarget(resolve, resolve(token.value).value);
    }
  }

  function Rewritten(resolve: string -> Option<string>, s: string): string {
    Print(MapPieces(resolve, Parse(s)))
  }

  lemma MapCons(resolve: string -> Option<string>, p: Piece, rest: seq<Piece>)
    ensures MapPieces(resolve, [p] + rest) == [MapPiece(resolve, p)] + MapPieces(resolve, rest)
    ensures Print(MapPieces(resolve, [p] + rest)) == PrintPiece(MapPiece(resolve, p)) + Print(MapPieces(resolve, rest))
  {
    assert ([p] + rest)[1..] == rest;
    PrintCons(MapPiece(resolve, p), MapPieces(resolve, rest));
  }

  lemma RewrittenLink(resolve: string -> Option<string>, s: string)
    requires LinkAt(s).Some?
    ensures var link := LinkAt(s).value;
      Rewritten(resolve, s) ==
        "![" + LinkText(link.alt, Resolved(resolve, link.url)) + Rewritten(resolve, link.rest)
  {
    var link := LinkAt(s).value;
    FindLinkParts(s[2..]);
    MapCons(resolve, Image(link.alt, link.url), Parse(link.rest));
  }

  lemma RewrittenChar(resolve: string -> Option<string>, c: char, s: string)
    requires LinkAt([c] + s).None?
    ensures Rewritten(resolve, [c] + s) == [c] + Rewritten(resolve, s)
  {
    assert ([c] + s)[1..] == s;
    MapCons(resolve, Plain(c), Parse(s));
  }

  // Rewriting keeps the first character.
  lemma FirstChar(resolve: string -> Option<string>, s: string)
    ensures s == "" <==> Rewritten(resolve, s) == ""
    ensures s != "" ==> Rewritten(resolve, s)[0] == s[0]
  {
    if s != "" {
      if LinkAt(s).Some? {
        RewrittenLink(resolve, s);
      } else {
        assert s == [s[0]] + s[1..];
        RewrittenChar(resolve, s[0], s[1..]);
      }
    }
  }

  // No link begins in a, when b follows it.
  predicate NoLinks(a: string, b: string) {
    a == "" || (LinkAt(a + b).None? && NoLinks(a[1..], b))
  }

  lemma PrefixStep(resolve: string -> Option<string>, c: char, a: string, b: string)
    requires LinkAt([c] + (a + b)).None? && Rewritten(resolve, a + b) == a + Rewritten(resolve, b)
    ensures Rewritten(resolve, [c] + (a + b)) == ([c] + a) + Rewritten(resolve, b)
  {
    RewrittenChar(resolve, c, a + b);
  }

  lemma {:induction false} PrefixKept(resolve: string -> Option<string>, a: string, b: string)
    requires NoLinks(a, b)
    ensures Rewritten(resolve, a + b) == a + Rewritten(resolve, b)
  {
    if a == "" {
      assert a + b == b;
    } else {
      assert a + b == [a[0]] + (a[1..] + b) && [a[0]] + a[1..] == a;
      PrefixKept(resolve, a[1..], b);
      PrefixStep(resolve, a[0], a[1..], b);
    }
  }

  lemma LinkCloses(s: string)
    ensures LinkAt(s).Some? ==> ']' in s && ')' in s
  {
    if LinkAt(s).Some? {
      FindLinkParts(s[2..]);
      var link := LinkAt(s).value;
      assert s[2..][|link.alt|] == ']' && s[2..][|link.alt| + 2 + |link.url|] == ')';
    }
  }

  // Without a closing bracket or parenthesis there is no link.
  lemma {:induction false} NoLinksUnclosed(a: string)
    requires ']' !in a || ')' !in a
    ensures NoLinks(a, "")
  {
    if a != "" {
      assert a + "" == a;
      LinkCloses(a);
      NoLinksUnclosed(a[1..]);
    }
  }

  lemma UnclosedKept(resolve: string -> Option<string>, a: string)
    requires ']' !in a || ')' !in a
    ensures Rewritten(resolve, a) == a
  {
    NoLinksUnclosed(a);
    PrefixKept(resolve, a, "");
    assert a + "" == a && Rewritten(resolve, "") == "";
  }

  // No link begins in what would be an alternative text if a URL followed.
  lemma {:induction false} NoLinksInAlt(alt: string, after: string)
    requires ']' !in alt && FindUrl(after).None?
    ensures NoLinks(alt, "]" + after)
  {
    if alt != "" {
      var s := alt + ("]" + after);
      if |alt| >= 2 {
        assert s[2..] == alt[2..] + [']'] + after;
        CutOf(alt[2..], ']', after);
      } else {
        assert s[1] == ']';
      }
      NoLinksInAlt(alt[1..], after);
    }
  }

  // Rewriting does not put a URL where there was none.
  lemma NoUrlKept(resolve: string -> Option<string>, after: string)
    requires FindUrl(after).None?
    ensures FindUrl(Rewritten(resolve, after)).None?
  {
    FirstChar(resolve, after);
    if after != "" && after[0] == '(' {
      var u := after[1..];
      assert after == ['('] + u;
      RewrittenChar(resolve, '(', u);
      CutParts(u, ')');
      if Cut(u, ')').None? {
        UnclosedKept(resolve, u);
      } else {
        assert u[0] == ')';
        FirstChar(resolve, u);
      }
    }
  }

  lemma FindLinkFails(alt: string, after: string)
    requires ']' !in alt
    ensures FindLink(alt + "]" + after).None? <==> FindUrl(after).None?
  {
    CutOf(alt, ']', after);
    assert alt + "]" + after == alt + [']'] + after;
  }

  lemma AltKept(resolve: string -> Option<string>, alt: string, after: string)
    requires ']' !in alt && FindUrl(after).None?
    ensures Rewritten(resolve, alt + "]" + after) == alt + "]" + Rewritten(resolve, after)
  {
    var tail := Rewritten(resolve, after);
    NoLinksInAlt(alt, after);
    PrefixKept(resolve, alt, "]" + after);
    RewrittenChar(resolve, ']', after);
    Bracketed(alt, after);
    Bracketed(alt, tail);
  }

  lemma Bracketed(alt: string, after: string)
    ensures alt + "]" + after == alt + ("]" + after) && [']'] + after == "]" + after
  {
  }

  // Nor does it make a link where there was none.
  lemma NoLinkKept(resolve: string -> Option<string>, t: string)
    requires FindLink(t).None?
    ensures FindLink(Rewritten(resolve, t)).None?
  {
    CutParts(t, ']');
    match Cut(t, ']') {
      case None => UnclosedKept(resolve, t);
      case Some((alt, after)) =>
        AltKept(resolve, alt, after);
        NoUrlKept(resolve, after);
        FindLinkFails(alt, Rewritten(resolve, after));
    }
  }

  lemma NoLinkAtKept(resolve: string -> Option<string>, c: char, s: string)
    requires LinkAt([c] + s).None?
    ensures LinkAt([c] + Rewritten(resolve, s)).None?
  {
    FirstChar(resolve, s);
    if c == '!' && s != "" && s[0] == '[' {
      var t := s[1..];
      assert s == ['['] + t && ([c] + s)[2..] == t;
      RewrittenChar(resolve, '[', t);
      NoLinkKept(resolve, t);
      assert ([c] + Rewritten(resolve, s))[2..] == Rewritten(resolve, t);
    }
  }

  lemma ParseLink(alt: string, url: string, rest: string)
    requires ']' !in alt && ')' !in url && url != ""
    ensures Parse("![" + LinkText(alt, url) + rest) == [Image(alt, url)] + Parse(rest)
  {
    var s := "![" + LinkText(alt, url) + rest;
    FindLinkOf(alt, url, rest);
    assert s[2..] == LinkText(alt, url) + rest;
  }

  lemma ParseChar(c: char, rest: string)
    requires LinkAt([c] + rest).None?
    ensures Parse([c] + rest) == [Plain(c)] + Parse(rest)
  {
    assert ([c] + rest)[1..] == rest;
  }

  // Rewriting replaces the URLs of links and nothing else: the rewritten text has the same links, in the same
  // places, with their alternative texts.
  lemma {:induction false} ParseRewritten(resolve: string -> Option<string>, s: string)
    requires Settles(resolve)
    ensures Parse(Rewritten(resolve, s)) == MapPieces(resolve, Parse(s))
    decreases |s|
  {
    if s == "" {
    } else if LinkAt(s).Some? {
      var link := LinkAt(s).value;
      FindLinkParts(s[2..]);
      ParseRewritten(resolve, link.rest);
      RewrittenLink(resolve, s);
      ResolvedUrl(resolve, link.url);
      ParseLink(link.alt, Resolved(resolve, link.url), Rewritten(resolve, link.rest));
      MapCons(resolve, Image(link.alt, link.url), Parse(link.rest));
    } else {
      var c, rest := s[0], s[1..];
      assert s == [c] + rest;
      ParseRewritten(resolve, rest);
      RewrittenChar(resolve, c, rest);
      NoLinkAtKept(resolve, c, rest);
      ParseChar(c, Rewritten(resolve, rest));
      ParseChar(c, rest);
      MapCons(resolve, Plain(c), Parse(rest));
    }
  }

  // ---------- Rewriting twice ----------

  // The URL of every link is not empty and has no closing parenthesis.
  predicate AreLinks(pieces: seq<Piece>) {
    pieces != [] ==> (pieces[0].Image? ==> pieces[0].url != "" && ')' !in pieces[0].url) && AreLinks(pieces[1..])
  }

  lemma {:induction false} ParseLinks(s: string)
    ensures AreLinks(Parse(s))
    decreases |s|
  {
    if s != "" {
      match LinkAt(s) {
        case Some(link) =>
          FindLinkParts(s[2..]);
          ParseLinks(link.rest);
          assert Parse(s)[1..] == Parse(link.rest);
        case None =>
          ParseLinks(s[1..]);
          assert Parse(s)[1..] == Parse(s[1..]);
      }
    }
  }

  lemma {:induction false} MapTwice(resolve: string -> Option<string>, pieces: seq<Piece>)
    requires Settles(resolve) && AreLinks(pieces)
    ensures MapPieces(resolve, MapPieces(resolve, pieces)) == MapPieces(resolve, pieces)
    ensures !HasBlankUrl(pieces) ==> !HasBlankUrl(MapPieces(resolve, pieces))
  {
    if pieces != [] {
      MapTwice(resolve, pieces[1..]);
      if pieces[0].Image? {
        ResolvedUrl(resolve, pieces[0].url);
      }
      assert MapPieces(resolve, pieces)[1..] == MapPieces(resolve, pieces[1..]);
    }
  }

  // A text that was rewritten is left alone by rewriting it again.
  lemma RewriteTwice(resolve: string -> Option<string>, markdown: string)
    requires Settles(resolve) && Rewrite(resolve, markdown).Some?
    ensures var r := Rewrite(resolve, markdown).value;
      Rewrite(resolve, r) == Some(r) && Parse(r) == MapPieces(resolve, Parse(markdown))
  {
    ParseRewritten(resolve, markdown);
    ParseLinks(markdown);
    MapTwice(resolve, Parse(markdown));
  }

  // ---------- With the alias map ----------

  function Resolver(env: Env, aliases: map<string, string>): string -> Option<string> {
    url => Resolve(env, aliases, url)
  }

  method RewriteMarkdownImageRefs(env: Env, markdown: string, images: seq<string>)
    returns (r: Option<string>, ghost aliases: map<string, string>)
    ensures images == [] ==> r == Some(markdown)
    ensures images != [] ==>
      IsAliasMap(env, images, aliases) && r == Rewrite(Resolver(env, aliases), markdown)
  {
    if images == [] {
      return Some(markdown), map[];
    }
    var built := BuildPathAliasMap(env, images);
    aliases := built;
    r := Rewrite(Resolver(env, built), markdown);
  }

  lemma {:induction false} TokenOfPlain(s: string, blanks: set<char>)
    requires forall i :: 0 <= i < |s| ==> s[i] !in blanks
    ensures TokenLength(s, blanks) == |s|
  {
    if s != "" {
      TokenOfPlain(s[1..], blanks);
    }
  }

  lemma PlainTarget(s: string)
    requires IsPlain(s)
    ensures s != "" && ')' !in s && FirstToken(s) == Some(s)
  {
    StripNone(s, WHITESPACE);
    TokenOfPlain(s, WHITESPACE);
    assert s[..|s|] == s;
  }

  // For plain image names the alias map makes such a resolver: every link it rewrites names a stored image, and
  // rewriting again changes nothing.
  lemma ResolverSettles(env: Env, images: seq<string>, aliases: map<string, string>)
    requires OdlAliases.Valid(env) && AllPlain(images) && IsAliasMap(env, images, aliases)
    ensures Settles(Resolver(env, aliases))
    ensures forall url :: Resolve(env, aliases, url).Some? ==> Resolve(env, aliases, url).value in images
  {
    var resolve := Resolver(env, aliases);
    forall token | resolve(token).Some?
      ensures IsTarget(resolve, resolve(token).value) && Resolve(env, aliases, token).value in images
    {
      ResolvesToImage(env, images, aliases, token);
      ResolveTwice(env, images, aliases, token);
      PlainTarget(resolve(token).value);
    }
  }

  lemma RewriteRefsTwice(env: Env, images: seq<string>, aliases: map<string, string>, markdown: string)
    requires OdlAliases.Valid(env) && AllPlain(images) && IsAliasMap(env, images, aliases)
    requires Rewrite(Resolver(env, aliases), markdown).Some?
    ensures var r := Rewrite(Resolver(env, aliases), markdown).value;
      Rewrite(Resolver(env, aliases), r) == Some(r)
  {
    ResolverSettles(env, images, aliases);
    RewriteTwice(Resolver(env, aliases), markdown);
  }

  // So it is with the program's own normalisation of references.
  lemma ProgramRewritesTwice(unescape: string -> string, env: Env, images: seq<string>, aliases: map<string, string>,
      markdown: string)
    requires Unescapes(unescape) && env.normalize == Normalizer(unescape)
    requires forall names, n :: n in env.order(names) <==> n in names
    requires AllPlain(images) && IsAliasMap(env, images, aliases)
    requires Rewrite(Resolver(env, aliases), markdown).Some?
    ensures var r := Rewrite(Resolver(env, aliases), markdown).value;
      Rewrite(Resolver(env, aliases), r) == Some(r)
  {
    NormalizerValid(unescape, env);
    RewriteRefsTwice(env, images, aliases, markdown);
  }
}
