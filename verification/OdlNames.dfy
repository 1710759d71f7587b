// Names of extracted images and how references to them are normalised (docreader/parser/opendataloader_parser.py).
module OdlNames {
  import opened Text

  // html.unescape on text without ampersands, which has no entities, and on text between &lt; and &gt;.
  ghost predicate Unescapes(unescape: string -> string) {
    && (forall s :: '&' !in s ==> unescape(s) == s)
    && (forall s :: '&' !in s ==> unescape("&lt;" + s + "&gt;") == "<" + s + ">")
  }

  // ---------- Names ----------

  // os.path.basename.
  function BaseName(s: string): string {
    if s == "" || s[|s| - 1] == '/' then "" else BaseName(s[..|s| - 1]) + [s[|s| - 1]]
  }

  lemma {:induction false} BaseNameOf(dir: string, name: string)
    requires '/' !in name
    ensures BaseName(dir + "/" + name) == name && BaseName(name) == name
    ensures '/' !in BaseName(name)
  {
    if name != "" {
      var s, front := dir + "/" + name, name[..|name| - 1];
      assert s[..|s| - 1] == dir + "/" + front && s[|s| - 1] == name[|name| - 1];
      assert name[|name| - 1] in name;
      BaseNameOf(dir, front);
      assert front + [name[|name| - 1]] == name;
    }
  }

  lemma {:induction false} BaseNameChars(s: string)
    ensures var b := BaseName(s);
      |b| <= |s| && b == s[|s| - |b|..] && '/' !in b
  {
    if s != "" && s[|s| - 1] != '/' {
      BaseNameChars(s[..|s| - 1]);
    }
  }

  function InImages(base: string): string {
    "images/" + base
  }

  function Replace(s: string, from: string, to: string): string
    requires from != ""
  {
    if s == "" then ""
    else if from <= s then to + Replace(s[|from|..], from, to)
    else [s[0]] + Replace(s[1..], from, to)
  }

  // _normalize_odl_image_url.
  function NormalizeUrl(unescape: string -> string, raw: string): string {
    var decoded := unescape(Strip(raw, WHITESPACE));
    var bare := Replace(Replace(Replace(decoded, "&lt;", "<"), "&gt;", ">"), "&amp;", "&");
    var unwrapped := Strip(Strip(Strip(bare, WHITESPACE), {'<', '>'}), WHITESPACE);
    var unquoted := Strip(Strip(unwrapped, {'"'}), {'\''});
    Slashed(if "./" <= unquoted then unquoted[2..] else unquoted)
  }

  // ---------- Plain names ----------

  const SPECIAL: set<char> := {'&', '<', '>', '"', '\'', '\\', ')'}

  // Normalisation leaves a plain text alone, and a link can carry it.
  predicate IsPlain(s: string) {
    && s != "" && !("./" <= s)
    && (forall i :: 0 <= i < |s| ==> s[i] !in WHITESPACE && s[i] !in SPECIAL)
  }

  predicate IsPlainImage(ref: string) {
    IsPlain(ref) && BaseName(ref) != ""
  }

  lemma {:induction false} ReplaceNone(s: string, from: string, to: string)
    requires from != "" && from[0] !in s
    ensures Replace(s, from, to) == s
  {
    if s != "" {
      assert s[0] in s;
      ReplaceNone(s[1..], from, to);
    }
  }

  lemma StripNone(s: string, cs: set<char>)
    requires s != "" ==> s[0] !in cs && s[|s| - 1] !in cs
    ensures Strip(s, cs) == s
  {
  }

  lemma StripAround(p: char, m: string, q: char, cs: set<char>)
    requires p in cs && q in cs && m != "" && m[0] !in cs && m[|m| - 1] !in cs
    ensures Strip([p] + m + [q], cs) == m
  {
    StripPadded([p], m, [q], cs);
  }

  // The part of normalisation after entities are decoded, on a plain text.
  function Unwrap(bare: string): string {
    var unwrapped := Strip(Strip(Strip(bare, WHITESPACE), {'<', '>'}), WHITESPACE);
    var unquoted := Strip(Strip(unwrapped, {'"'}), {'\''});
    Slashed(if "./" <= unquoted then unquoted[2..] else unquoted)
  }

  lemma PlainAffixes(s: string)
    requires IsPlain(s)
    ensures '&' !in s && '<' !in s && '>' !in s && '\\' !in s
    ensures s[0] !in WHITESPACE && s[|s| - 1] !in WHITESPACE
    ensures s[0] !in {'<', '>'} && s[|s| - 1] !in {'<', '>'}
    ensures s[0] !in {'"'} && s[|s| - 1] !in {'"'} && s[0] !in {'\''} && s[|s| - 1] !in {'\''}
  {
  }

  lemma UnwrapPlain(s: string)
    requires IsPlain(s)
    ensures Unwrap(s) == s
  {
    PlainAffixes(s);
    StripNone(s, WHITESPACE);
    StripNone(s, {'<', '>'});
    StripNone(s, {'"'});
    StripNone(s, {'\''});
    assert Slashed(s) == s;
  }

  lemma UnwrapBracketed(s: string)
    requires IsPlain(s)
    ensures Unwrap("<" + s + ">") == s
  {
    PlainAffixes(s);
    BracketsNotWhite();
    StripNone("<" + s + ">", WHITESPACE);
    StripAround('<', s, '>', {'<', '>'});
    StripNone(s, WHITESPACE);
    StripNone(s, {'"'});
    StripNone(s, {'\''});
    assert Slashed(s) == s;
  }

  lemma BracketsNotWhite()
    ensures '<' !in WHITESPACE && '>' !in WHITESPACE && '&' !in WHITESPACE && ';' !in WHITESPACE
  {
  }

  lemma NormalizeIs(unescape: string -> string, raw: string, bare: string)
    requires unescape(Strip(raw, WHITESPACE)) == bare && '&' !in bare
    ensures NormalizeUrl(unescape, raw) == Unwrap(bare)
  {
    ReplaceNone(bare, "&lt;", "<");
    ReplaceNone(bare, "&gt;", ">");
    ReplaceNone(bare, "&amp;", "&");
  }

  // All spellings of a plain text mean that text.
  lemma NormalizePlain(unescape: string -> string, s: string)
    requires Unescapes(unescape) && IsPlain(s)
    ensures NormalizeUrl(unescape, s) == s
    ensures NormalizeUrl(unescape, "<" + s + ">") == s
    ensures NormalizeUrl(unescape, "&lt;" + s + "&gt;") == s
  {
    PlainAffixes(s);
    BracketsNotWhite();
    StripNone(s, WHITESPACE);
    NormalizeIs(unescape, s, s);
    UnwrapPlain(s);
    StripNone("<" + s + ">", WHITESPACE);
    NormalizeIs(unescape, "<" + s + ">", "<" + s + ">");
    UnwrapBracketed(s);
    StripNone("&lt;" + s + "&gt;", WHITESPACE);
    NormalizeIs(unescape, "&lt;" + s + "&gt;", "<" + s + ">");
  }
}
