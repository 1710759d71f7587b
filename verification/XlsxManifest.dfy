// The two substitutions that delete mentions of the shared-strings part from the manifests of a package
// (docreader/parser/xlsx_repair.py, _SST_OVERRIDE_RE and _SST_REL_RE).
module XlsxManifest {
  import opened Wrappers
  import opened Text

  // The regular expression  tag [^>]* attr [^"]* suffix " [^>]* />  with case ignored: all three in lower case, attr
  // with its opening quote.
  datatype Pattern = Pattern(tag: string, attr: string, suffix: string)

  const OVERRIDE := Pattern("<override", "partname=\"", "sharedstrings.xml")
  const RELATIONSHIP := Pattern("<relationship", "type=\"", "sharedstrings")

  predicate Starts(s: string, word: string) {
    |word| <= |s| && Lower(s[..|word|]) == word
  }

  // After the quote: a value that ends in the suffix, and then, before any other '>', the end of an empty element.
  function AfterValue(p: Pattern, s: string): Option<string> {
    match Cut(s, '"')
    case None => None
    case Some((value, after)) =>
      if !EndsWith(Lower(value), p.suffix) then None
      else match Cut(after, '>') {
        case None => None
        case Some((inside, rest)) => if EndsWith(inside, "/") then Some(rest) else None
      }
  }

  // After the tag: the match is greedy, so of several attributes in the same tag the last one that fits counts.
  function AfterTag(p: Pattern, s: string): Option<string> {
    if s == "" then None
    else
      var later := if s[0] == '>' then None else AfterTag(p, s[1..]);
      if later.Some? then later
      else if Starts(s, p.attr) then AfterValue(p, s[|p.attr|..])
      else None
  }

  // What follows a match at the beginning of s.
  function AfterMatch(p: Pattern, s: string): Option<string> {
    if Starts(s, p.tag) then AfterTag(p, s[|p.tag|..]) else None
  }

  lemma AfterValueShorter(p: Pattern, s: string)
    ensures AfterValue(p, s).Some? ==> |AfterValue(p, s).value| < |s|
  {
    CutParts(s, '"');
    if Cut(s, '"').Some? {
      CutParts(Cut(s, '"').value.1, '>');
    }
  }

  lemma {:induction false} AfterTagShorter(p: Pattern, s: string)
    ensures AfterTag(p, s).Some? ==> |AfterTag(p, s).value| < |s|
  {
    if s != "" {
      AfterTagShorter(p, s[1..]);
      if Starts(s, p.attr) {
        AfterValueShorter(p, s[|p.attr|..]);
      }
    }
  }

  // re.sub with the empty string: matches are taken from the left and do not overlap.
  function Drop(p: Pattern, s: string): string
    decreases |s|
  {
    if s == "" then ""
    else match AfterMatch(p, s) {
      case Some(rest) =>
        AfterTagShorter(p, s[|p.tag|..]);
        Drop(p, rest)
      case None => [s[0]] + Drop(p, s[1..])
    }
  }

  // ---------- Manifests ----------

  // A tag, without its angle brackets, or white space between tags.
  datatype Item = Tag(body: string) | Gap(text: string)

  const GAP_CHARS: set<char> := {' ', '\t', '\r', '\n', '\U{FEFF}'}

  function ItemText(item: Item): string {
    match item
    case Tag(body) => "<" + body + ">"
    case Gap(text) => text
  }

  function ManifestText(items: seq<Item>): string {
    if items == [] then "" else ItemText(items[0]) + ManifestText(items[1..])
  }

  // Where the attribute name with its quote occurs in a tag, the quote is closed in the same tag.
  predicate QuotesClosed(p: Pattern, s: string) {
    s != "" ==> (Starts(s, p.attr) ==> '"' in s[|p.attr|..]) && QuotesClosed(p, s[1..])
  }

  predicate IsItem(p: Pattern, item: Item) {
    match item
    case Tag(body) => '<' !in body && '>' !in body && QuotesClosed(p, body)
    case Gap(text) => AllIn(text, GAP_CHARS)
  }

  // No angle bracket inside a tag, nothing but white space between tags.
  predicate AreItems(p: Pattern, items: seq<Item>) {
    forall i :: 0 <= i < |items| ==> IsItem(p, items[i])
  }

  // The rest of a tag: the attribute in double quotes with a value that ends in the suffix, and a slash at the end.
  predicate HasElementEnd(p: Pattern, s: string) {
    s != "" && (HasElementEnd(p, s[1..]) || (Starts(s, p.attr) && IsValueEnd(p, s[|p.attr|..])))
  }

  predicate IsValueEnd(p: Pattern, s: string) {
    match Cut(s, '"')
    case None => false
    case Some((value, after)) => EndsWith(Lower(value), p.suffix) && EndsWith(after, "/")
  }

  // A self-closing element of that tag with that attribute, in double quotes.
  predicate IsElement(p: Pattern, body: string) {
    Starts("<" + body, p.tag) && HasElementEnd(p, ("<" + body)[|p.tag|..])
  }

  predicate IsPattern(p: Pattern) {
    p.tag != "" && p.tag[0] == '<' && '>' !in p.tag && p.attr != "" && '>' !in p.attr
  }

  function Remaining(p: Pattern, items: seq<Item>): seq<Item> {
    if items == [] then []
    else (if items[0].Tag? && IsElement(p, items[0].body) then [] else [items[0]]) + Remaining(p, items[1..])
  }

  // ---------- Deleting from a manifest ----------

  lemma CutAppend(s: string, c: char, tail: string)
    ensures Cut(s, c).Some? ==> Cut(s + tail, c) == Some((Cut(s, c).value.0, Cut(s, c).value.1 + tail))
  {
    CutParts(s, c);
    if Cut(s, c).Some? {
      var (before, after) := Cut(s, c).value;
      assert s + tail == before + [c] + (after + tail);
      CutOf(before, c, after + tail);
    }
  }

  // A word without '>' does not reach beyond the end of a tag.
  lemma StartsInTag(s: string, word: string, rest: string)
    requires '>' !in word
    ensures Starts(s + ">" + rest, word) <==> Starts(s, word)
  {
    var t := s + ">" + rest;
    if |word| <= |s| {
      assert t[..|word|] == s[..|word|];
    } else if |word| <= |t| {
      assert Lower(t[..|word|])[|s|] == '>' && word[|s|] in word;
    }
  }

  lemma ValueInTag(p: Pattern, s: string, rest: string)
    requires '>' !in s && '"' in s
    ensures AfterValue(p, s + ">" + rest) == if IsValueEnd(p, s) then Some(rest) else None
  {
    CutParts(s, '"');
    var (value, after) := Cut(s, '"').value;
    CutAppend(s, '"', ">" + rest);
    assert s + ">" + rest == s + (">" + rest);
    assert after + (">" + rest) == after + ['>'] + rest;
    forall i | 0 <= i < |after| ensures after[i] != '>' {
      assert after[i] == s[|value| + 1 + i];
    }
    CutOf(after, '>', rest);
  }

  lemma {:induction false} ElementInTag(p: Pattern, s: string, rest: string)
    requires IsPattern(p) && '>' !in s && QuotesClosed(p, s)
    ensures AfterTag(p, s + ">" + rest) == if HasElementEnd(p, s) then Some(rest) else None
  {
    var t := s + ">" + rest;
    StartsInTag(s, p.attr, rest);
    if s != "" {
      assert t[1..] == s[1..] + ">" + rest;
      assert s[0] in s;
      ElementInTag(p, s[1..], rest);
      if Starts(s, p.attr) {
        assert t[|p.attr|..] == s[|p.attr|..] + ">" + rest;
        ValueInTag(p, s[|p.attr|..], rest);
      }
    }
  }

  lemma {:induction false} QuotesClosedSuffix(p: Pattern, s: string, n: nat)
    requires QuotesClosed(p, s) && n <= |s|
    ensures QuotesClosed(p, s[n..])
  {
    if n > 0 {
      QuotesClosedSuffix(p, s[1..], n - 1);
      assert s[1..][n - 1..] == s[n..];
    }
  }

  lemma MatchInTag(p: Pattern, s: string, rest: string)
    requires IsPattern(p) && '>' !in s
    requires Starts(s, p.tag) ==> QuotesClosed(p, s[|p.tag|..])
    ensures AfterMatch(p, s + ">" + rest) ==
      if Starts(s, p.tag) && HasElementEnd(p, s[|p.tag|..]) then Some(rest) else None
  {
    StartsInTag(s, p.tag, rest);
    if Starts(s, p.tag) {
      var tail := s[|p.tag|..];
      assert (s + ">" + rest)[|p.tag|..] == tail + ">" + rest;
      ElementInTag(p, tail, rest);
    }
  }

  // A tag of a manifest is matched, as a whole, exactly if it is such an element.
  lemma MatchTag(p: Pattern, body: string, rest: string)
    requires IsPattern(p) && IsItem(p, Tag(body))
    ensures AfterMatch(p, ItemText(Tag(body)) + rest) == if IsElement(p, body) then Some(rest) else None
  {
    var s := "<" + body;
    if Starts(s, p.tag) {
      assert s[|p.tag|..] == body[|p.tag| - 1..];
      QuotesClosedSuffix(p, body, |p.tag| - 1);
    }
    MatchInTag(p, s, rest);
  }

  lemma DropOther(p: Pattern, c: char, rest: string)
    requires IsPattern(p) && c != '<'
    ensures Drop(p, [c] + rest) == [c] + Drop(p, rest)
  {
    var s := [c] + rest;
    assert s[1..] == rest;
    if |p.tag| <= |s| {
      assert Lower(s[..|p.tag|])[0] != '<';
    }
  }

  lemma Associate(c: char, a: string, b: string)
    ensures [c] + (a + b) == ([c] + a) + b
  {
  }

  lemma {:induction false} DropKeeps(p: Pattern, a: string, rest: string)
    requires IsPattern(p) && '<' !in a
    ensures Drop(p, a + rest) == a + Drop(p, rest)
  {
    if a == "" {
      assert a + rest == rest;
    } else {
      var c, tail := a[0], a[1..];
      assert c in a && [c] + tail == a;
      DropKeeps(p, tail, rest);
      DropOther(p, c, tail + rest);
      Associate(c, tail, rest);
      Associate(c, tail, Drop(p, rest));
    }
  }

  lemma TagKept(p: Pattern, body: string, rest: string)
    requires IsPattern(p) && IsItem(p, Tag(body)) && !IsElement(p, body)
    ensures Drop(p, ItemText(Tag(body)) + rest) == ItemText(Tag(body)) + Drop(p, rest)
  {
    var t, tail := ItemText(Tag(body)) + rest, body + ">";
    MatchTag(p, body, rest);
    assert t[0] == '<' && t[1..] == tail + rest;
    DropKeeps(p, tail, rest);
    assert ItemText(Tag(body)) == ['<'] + tail;
    Associate('<', tail, Drop(p, rest));
  }

  lemma DropItem(p: Pattern, item: Item, rest: string)
    requires IsPattern(p) && IsItem(p, item)
    ensures Drop(p, ItemText(item) + rest) ==
      if item.Tag? && IsElement(p, item.body) then Drop(p, rest) else ItemText(item) + Drop(p, rest)
  {
    match item {
      case Gap(text) =>
        assert '<' !in text by {
          assert '<' !in GAP_CHARS;
        }
        DropKeeps(p, text, rest);
      case Tag(body) =>
        MatchTag(p, body, rest);
        if !IsElement(p, body) {
          TagKept(p, body, rest);
        }
    }
  }

  // On a manifest the substitution deletes exactly the double-quoted self-closing elements.
  lemma {:induction false} DropFromManifest(p: Pattern, items: seq<Item>)
    requires IsPattern(p) && AreItems(p, items)
    ensures Drop(p, ManifestText(items)) == ManifestText(Remaining(p, items))
  {
    if items != [] {
      assert IsItem(p, items[0]);
      DropFromManifest(p, items[1..]);
      DropItem(p, items[0], ManifestText(items[1..]));
      var rest := Remaining(p, items[1..]);
      assert ([items[0]] + rest)[1..] == rest && [] + rest == rest;
    }
  }

  lemma {:induction false} RemainingItems(p: Pattern, items: seq<Item>)
    requires AreItems(p, items)
    ensures AreItems(p, Remaining(p, items)) && Remaining(p, Remaining(p, items)) == Remaining(p, items)
  {
    if items != [] {
      assert IsItem(p, items[0]);
      RemainingItems(p, items[1..]);
      var rest := Remaining(p, items[1..]);
      assert ([items[0]] + rest)[1..] == rest && [] + rest == rest;
    }
  }

  // Deleting again deletes nothing more from a manifest.
  lemma DropTwice(p: Pattern, items: seq<Item>)
    requires IsPattern(p) && AreItems(p, items)
    ensures Drop(p, Drop(p, ManifestText(items))) == Drop(p, ManifestText(items))
  {
    DropFromManifest(p, items);
    RemainingItems(p, items);
    DropFromManifest(p, Remaining(p, items));
  }

  // ---------- Mentions ----------

  predicate Mentions(word: string, text: string) {
    Contains(Lower(text), word)
  }

  // A word that neither a tag's brackets nor white space can be part of.
  predicate IsWord(word: string) {
    word != "" && '<' !in word && '>' !in word && forall i :: 0 <= i < |word| ==> word[i] !in GAP_CHARS
  }

  lemma {:induction false} ContainsAround(x: string, c: char, y: string, word: string)
    requires word != "" && c !in word
    ensures Contains(x + [c] + y, word) <==> Contains(x, word) || Contains(y, word)
  {
    var s := x + [c] + y;
    if x == "" {
      assert s[1..] == y && s[0] == c;
    } else {
      assert s[1..] == x[1..] + [c] + y;
      ContainsAround(x[1..], c, y, word);
      if |word| <= |x| {
        assert s[..|word|] == x[..|word|];
      } else {
        assert s[|x|] == c && word[|x|] in word;
      }
    }
  }

  lemma {:induction false} ContainsAfterGap(gap: string, y: string, word: string)
    requires word != "" && forall i :: 0 <= i < |gap| ==> gap[i] !in word
    ensures Contains(gap + y, word) <==> Contains(y, word)
  {
    if gap == "" {
      assert gap + y == y;
    } else {
      assert gap + y == "" + [gap[0]] + (gap[1..] + y);
      ContainsAround("", gap[0], gap[1..] + y, word);
      ContainsAfterGap(gap[1..], y, word);
    }
  }

  predicate TagMentions(word: string, item: Item) {
    item.Tag? && Mentions(word, item.body)
  }

  lemma ItemMentions(p: Pattern, item: Item, rest: string, word: string)
    requires IsWord(word) && IsItem(p, item)
    ensures Mentions(word, ItemText(item) + rest) <==> TagMentions(word, item) || Mentions(word, rest)
  {
    match item {
      case Gap(text) =>
        assert Lower(text + rest) == text + Lower(rest) by {
          assert forall i :: 0 <= i < |text| ==> text[i] in GAP_CHARS;
        }
        ContainsAfterGap(text, Lower(rest), word);
      case Tag(body) =>
        var low := Lower(body);
        assert Lower(ItemText(item) + rest) == "" + ['<'] + (low + ['>'] + Lower(rest));
        ContainsAround("", '<', low + ['>'] + Lower(rest), word);
        ContainsAround(low, '>', Lower(rest), word);
    }
  }

  predicate SomeMention(word: string, items: seq<Item>) {
    items != [] && (TagMentions(word, items[0]) || SomeMention(word, items[1..]))
  }

  // A manifest mentions a word exactly if one of its tags does.
  lemma {:induction false} ManifestMentions(p: Pattern, items: seq<Item>, word: string)
    requires IsWord(word) && AreItems(p, items)
    ensures Mentions(word, ManifestText(items)) <==> SomeMention(word, items)
  {
    if items == [] {
      assert Lower("") == "";
    } else {
      assert IsItem(p, items[0]);
      ItemMentions(p, items[0], ManifestText(items[1..]), word);
      ManifestMentions(p, items[1..], word);
    }
  }

  // A tag that mentions the word and is not a double-quoted self-closing element.
  predicate OtherMention(p: Pattern, word: string, item: Item) {
    TagMentions(word, item) && !IsElement(p, item.body)
  }

  predicate SomeOther(p: Pattern, word: string, items: seq<Item>) {
    exists i :: 0 <= i < |items| && OtherMention(p, word, items[i])
  }

  lemma SomeOtherCons(p: Pattern, word: string, items: seq<Item>)
    requires items != []
    ensures SomeOther(p, word, items) <==> OtherMention(p, word, items[0]) || SomeOther(p, word, items[1..])
  {
    if SomeOther(p, word, items[1..]) {
      var k :| 0 <= k < |items[1..]| && OtherMention(p, word, items[1..][k]);
      assert OtherMention(p, word, items[k + 1]);
    }
    if SomeOther(p, word, items) {
      var i :| 0 <= i < |items| && OtherMention(p, word, items[i]);
      assert i > 0 ==> OtherMention(p, word, items[1..][i - 1]);
    }
  }

  lemma {:induction false} RemainingMentions(p: Pattern, items: seq<Item>, word: string)
    ensures SomeMention(word, Remaining(p, items)) <==> SomeOther(p, word, items)
  {
    if items != [] {
      RemainingMentions(p, items[1..], word);
      SomeOtherCons(p, word, items);
      var rest := Remaining(p, items[1..]);
      assert ([items[0]] + rest)[1..] == rest && [] + rest == rest;
    }
  }

  // A mention survives the deletion exactly if some tag mentions the word without being a double-quoted
  // self-closing element.
  lemma MentionSurvives(p: Pattern, items: seq<Item>, word: string)
    requires IsPattern(p) && IsWord(word) && AreItems(p, items)
    ensures Mentions(word, Drop(p, ManifestText(items))) <==> SomeOther(p, word, items)
  {
    DropFromManifest(p, items);
    RemainingItems(p, items);
    ManifestMentions(p, Remaining(p, items), word);
    RemainingMentions(p, items, word);
  }

  // ---------- Tags with and without double quotes ----------

  lemma {:induction false} NoQuotes(p: Pattern, s: string)
    requires p.attr != "" && p.attr[|p.attr| - 1] == '"' && '"' !in s
    ensures QuotesClosed(p, s) && !HasElementEnd(p, s)
  {
    if s != "" {
      NoQuotes(p, s[1..]);
      if |p.attr| <= |s| {
        assert Lower(s[..|p.attr|])[|p.attr| - 1] != '"';
      }
    }
  }

  // Without double quotes no tag is such an element.
  lemma NotElement(p: Pattern, body: string)
    requires p.attr != "" && p.attr[|p.attr| - 1] == '"' && '"' !in body && p.tag != ""
    ensures !IsElement(p, body)
  {
    var s := "<" + body;
    if |p.tag| <= |s| {
      forall i | 0 <= i < |s[|p.tag|..]| ensures s[|p.tag|..][i] != '"' {
        assert s[|p.tag|..][i] == s[|p.tag| + i];
      }
      NoQuotes(p, s[|p.tag|..]);
    }
  }

  // A word with its only quote at the end, found where there is no quote before, ends at the first quote.
  lemma AttributeAt(p: Pattern, before: string, rest: string)
    requires p.attr != "" && p.attr[|p.attr| - 1] == '"' && '"' !in p.attr[..|p.attr| - 1] && '"' !in before
    requires Starts(before + "\"" + rest, p.attr)
    ensures |p.attr| == |before| + 1 && Lower(before) + "\"" == p.attr
  {
    var s := before + "\"" + rest;
    var found := Lower(s[..|p.attr|]);
    assert found == p.attr && found[|p.attr| - 1] == '"';
    assert forall i :: 0 <= i < |p.attr| - 1 ==> found[i] == p.attr[..|p.attr| - 1][i];
    assert s[|before|] == '"' && forall i :: 0 <= i < |before| ==> s[i] == before[i];
    assert |before| < |p.attr| ==> found[|before|] == '"';
    assert |before| == |p.attr| - 1;
    assert s[..|p.attr|] == before + "\"";
  }

  // A value that does not end like the attribute, and the end of an empty element.
  lemma {:induction false} ValueCloses(p: Pattern, value: string)
    requires p.attr != "" && p.attr[|p.attr| - 1] == '"' && '"' !in p.attr[..|p.attr| - 1]
    requires '"' !in value && !EndsWith(Lower(value) + "\"", p.attr)
    ensures QuotesClosed(p, value + "\"/")
  {
    var s := value + "\"" + "/";
    assert s == value + "\"/";
    if Starts(s, p.attr) {
      AttributeAt(p, value, "/");
      assert false;
    }
    if value == "" {
      assert s[1..] == "/" && "/"[1..] == "";
      NoQuotes(p, "/");
    } else {
      assert s[1..] == value[1..] + "\"/";
      assert Lower(value) == Lower(value[..1]) + Lower(value[1..]);
      ValueCloses(p, value[1..]);
    }
  }

  lemma {:induction false} AttributeCloses(p: Pattern, before: string, value: string)
    requires p.attr != "" && p.attr[|p.attr| - 1] == '"' && '"' !in p.attr[..|p.attr| - 1]
    requires '"' !in before && '"' !in value && !EndsWith(Lower(value) + "\"", p.attr)
    ensures QuotesClosed(p, before + "\"" + (value + "\"/"))
  {
    var rest := value + "\"/";
    var s := before + "\"" + rest;
    if Starts(s, p.attr) {
      AttributeAt(p, before, rest);
      assert s[|p.attr|..] == rest && rest[|value|] == '"';
    }
    if before == "" {
      assert s[1..] == rest;
      ValueCloses(p, value);
    } else {
      assert s[1..] == before[1..] + "\"" + rest;
      AttributeCloses(p, before[1..], value);
    }
  }

  lemma {:induction false} ElementEndLater(p: Pattern, before: string, s: string)
    requires HasElementEnd(p, s)
    ensures HasElementEnd(p, before + s)
  {
    if before == "" {
      assert before + s == s;
    } else {
      assert (before + s)[1..] == before[1..] + s;
      ElementEndLater(p, before[1..], s);
    }
  }

  lemma ValueEnds(p: Pattern, attr: string, value: string)
    requires attr != "" && Lower(attr) == p.attr && '"' !in value && EndsWith(Lower(value), p.suffix)
    ensures HasElementEnd(p, attr + (value + "\"/"))
  {
    var rest := value + "\"/";
    CutOf(value, '"', "/");
    assert rest == value + ['"'] + "/";
    assert (attr + rest)[..|attr|] == attr && (attr + rest)[|attr|..] == rest;
  }

  // Any spelling of the tag and the attribute with a double-quoted value that has the suffix: such an element.
  lemma WrittenElement(p: Pattern, tag: string, space: string, attr: string, value: string)
    requires IsPattern(p) && p.attr[|p.attr| - 1] == '"' && '"' !in p.attr[..|p.attr| - 1]
    requires '"' !in tag && '"' !in space && '"' !in attr && '"' !in value
    requires Lower("<" + tag) == p.tag && Lower(attr) + "\"" == p.attr
    requires EndsWith(Lower(value), p.suffix) && !EndsWith(Lower(value) + "\"", p.attr)
    ensures var body := tag + space + attr + "\"" + (value + "\"/");
      QuotesClosed(p, body) && IsElement(p, body)
  {
    var rest := value + "\"/";
    AttributeCloses(p, tag + space + attr, value);
    var quoted := attr + "\"";
    assert Lower(quoted) == Lower(attr) + "\"";
    ValueEnds(p, quoted, value);
    ElementEndLater(p, space, quoted + rest);
    ElementText(tag, space, attr, rest);
  }

  lemma ElementText(tag: string, space: string, attr: string, rest: string)
    ensures var s := "<" + (tag + space + attr + "\"" + rest);
      s[..|tag| + 1] == "<" + tag && s[|tag| + 1..] == space + (attr + "\"" + rest)
  {
  }

  lemma {:induction false} ContainsAt(s: string, k: nat, word: string)
    requires k + |word| <= |s| && s[k..k + |word|] == word
    ensures Contains(s, word)
  {
    if k > 0 {
      assert s[1..][k - 1..k - 1 + |word|] == s[k..k + |word|];
      ContainsAt(s[1..], k - 1, word);
    }
  }
}
