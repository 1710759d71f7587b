// Repairing an XLSX package, from the package as it is written: the names of its parts, the tags of its manifests and
// the cells of its sheets (xlsx_repair.py).
module XlsxWritten {
  import opened Wrappers
  import opened Text
  import opened XlsxManifest
  import opened XlsxRepair
  import opened XlsxSettles

  // ---------- Declarations as they are written ----------

  // <tag ... attr="...suffix" ... />, the names in any case.
  ghost predicate Declares(body: string, tag: string, attr: string, suffix: string) {
    exists head, before, name, value, after ::
      IsDeclaration(body, head, before, name, value, after) &&
      Lower(head) == tag && Lower(name) == attr && EndsWith(Lower(value), suffix)
  }

  predicate IsDeclaration(body: string, head: string, before: string, name: string, value: string, after: string) {
    body == head + before + (name + "=\"" + value + "\"" + after) && '"' !in value && EndsWith(after, "/")
  }

  lemma {:induction false} ElementEndAt(p: Pattern, s: string) returns (k: nat)
    requires HasElementEnd(p, s)
    ensures k <= |s| && Starts(s[k..], p.attr) && IsValueEnd(p, s[k..][|p.attr|..])
  {
    if HasElementEnd(p, s[1..]) {
      k := ElementEndAt(p, s[1..]);
      assert s[k + 1..] == s[1..][k..];
      k := k + 1;
    } else {
      k := 0;
      assert s[0..] == s;
    }
  }

  // An attribute with a fitting value at the beginning of t, taken apart.
  lemma EndParts(p: Pattern, t: string, attr: string) returns (name: string, value: string, after: string)
    requires p.attr == attr + "=\"" && Starts(t, p.attr) && IsValueEnd(p, t[|p.attr|..])
    ensures t == name + "=\"" + value + "\"" + after && Lower(name) == attr
    ensures '"' !in value && EndsWith(Lower(value), p.suffix) && EndsWith(after, "/")
  {
    var front, rest := t[..|p.attr|], t[|p.attr|..];
    CutParts(rest, '"');
    value, after := Cut(rest, '"').value.0, Cut(rest, '"').value.1;
    name := LowerPrefix(front, attr);
    assert t == front + rest;
    assert t == name + "=\"" + (value + "\"" + after);
  }

  lemma EndOf(p: Pattern, name: string, value: string, after: string)
    requires p.attr == Lower(name) + "=\"" && '"' !in value && EndsWith(Lower(value), p.suffix) && EndsWith(after, "/")
    ensures var t := name + "=\"" + value + "\"" + after; Starts(t, p.attr) && IsValueEnd(p, t[|p.attr|..])
  {
    var t, rest := name + "=\"" + value + "\"" + after, value + "\"" + after;
    CutOf(value, '"', after);
    LowerConcat(name, "=\"");
    assert t == (name + "=\"") + rest;
    assert t[..|p.attr|] == name + "=\"" && t[|p.attr|..] == rest;
    assert rest == value + ['"'] + after;
  }

  // The names in a pattern are in lower case.
  lemma LowerPrefix(s: string, attr: string) returns (name: string)
    requires Lower(s) == attr + "=\""
    ensures s == name + "=\"" && Lower(name) == attr
  {
    name := s[..|attr|];
    assert |s| == |attr| + 2;
    assert Lower(s)[|attr|] == '=' && Lower(s)[|attr| + 1] == '"';
    assert Lower(name) == Lower(s)[..|attr|];
  }

  lemma TagHead(body: string, tag: string)
    ensures Starts("<" + body, "<" + tag) <==> |tag| <= |body| && Lower(body[..|tag|]) == tag
    ensures |tag| <= |body| ==> ("<" + body)[|tag| + 1..] == body[|tag|..]
  {
    if |tag| <= |body| {
      assert ("<" + body)[..|tag| + 1] == "<" + body[..|tag|];
      LowerConcat("<", body[..|tag|]);
      assert ("<" + tag)[1..] == tag && ("<" + Lower(body[..|tag|]))[1..] == Lower(body[..|tag|]);
    }
  }

  // What the substitution takes for an element is a declaration, and the other way round.
  lemma ElementIff(p: Pattern, body: string, tag: string, attr: string)
    requires p.tag == "<" + tag && p.attr == attr + "=\""
    ensures IsElement(p, body) <==> Declares(body, tag, attr, p.suffix)
  {
    hide Starts, HasElementEnd, IsValueEnd;
    TagHead(body, tag);
    if IsElement(p, body) {
      var s := body[|tag|..];
      var k := ElementEndAt(p, s);
      var name, value, after := EndParts(p, s[k..], attr);
      assert body == body[..|tag|] + s[..k] + s[k..];
      assert IsDeclaration(body, body[..|tag|], s[..k], name, value, after);
    }
    if Declares(body, tag, attr, p.suffix) {
      DeclaredElement(p, body, tag, attr);
    }
  }

  lemma DeclaredElement(p: Pattern, body: string, tag: string, attr: string)
    requires p.tag == "<" + tag && p.attr == attr + "=\"" && Declares(body, tag, attr, p.suffix)
    ensures IsElement(p, body)
  {
    hide Starts, IsValueEnd;
    var head, before, name, value, after :|
      IsDeclaration(body, head, before, name, value, after) &&
      Lower(head) == tag && Lower(name) == attr && EndsWith(Lower(value), p.suffix);
    var t := name + "=\"" + value + "\"" + after;
    EndOf(p, name, value, after);
    ElementEndStart(p, t);
    ElementEndLater(p, before, t);
    assert body == head + (before + t);
    assert body[..|tag|] == head && body[|tag|..] == before + t;
    TagHead(body, tag);
  }

  lemma ElementEndStart(p: Pattern, t: string)
    requires p.attr != "" && Starts(t, p.attr) && IsValueEnd(p, t[|p.attr|..])
    ensures HasElementEnd(p, t)
  {
  }

  // The manifest without the declarations.
  ghost function Without(items: seq<Item>, tag: string, attr: string, suffix: string): seq<Item> {
    if items == [] then []
    else if items[0].Tag? && Declares(items[0].body, tag, attr, suffix) then Without(items[1..], tag, attr, suffix)
    else [items[0]] + Without(items[1..], tag, attr, suffix)
  }

  lemma {:induction false} RemainingIs(p: Pattern, items: seq<Item>, tag: string, attr: string)
    requires p.tag == "<" + tag && p.attr == attr + "=\""
    ensures Remaining(p, items) == Without(items, tag, attr, p.suffix)
  {
    hide IsElement, Declares;
    if items != [] {
      RemainingIs(p, items[1..], tag, attr);
      if items[0].Tag? {
        ElementIff(p, items[0].body, tag, attr);
      }
    }
  }

  // Whether the word stands somewhere in a tag, in any case.
  ghost predicate SomeTagHas(items: seq<Item>, word: string) {
    exists i, k: nat :: 0 <= i < |items| && TagHasAt(items[i], k, word)
  }

  predicate TagHasAt(item: Item, k: nat, word: string) {
    item.Tag? && k + |word| <= |item.body| && Lower(item.body[k..k + |word|]) == word
  }

  lemma {:induction false} ContainsFrom(s: string, word: string) returns (k: nat)
    requires Contains(s, word)
    ensures k + |word| <= |s| && s[k..k + |word|] == word
  {
    if word <= s {
      k := 0;
    } else {
      k := ContainsFrom(s[1..], word);
      assert s[k + 1..k + 1 + |word|] == s[1..][k..k + |word|];
      k := k + 1;
    }
  }

  lemma {:induction false} MentionIff(items: seq<Item>, word: string)
    ensures SomeMention(word, items) <==> SomeTagHas(items, word)
  {
    if items != [] {
      var rest := items[1..];
      MentionIff(rest, word);
      if TagMentions(word, items[0]) {
        var k := ContainsFrom(Lower(items[0].body), word);
        assert Lower(items[0].body)[k..k + |word|] == Lower(items[0].body[k..k + |word|]);
        assert TagHasAt(items[0], k, word);
      }
      if i, k: nat :| 0 <= i < |rest| && TagHasAt(rest[i], k, word) {
        assert TagHasAt(items[i + 1], k, word);
      }
      if i, k: nat :| 0 <= i < |items| && TagHasAt(items[i], k, word) {
        HasMention(items, i, k, word);
      }
    }
  }

  lemma HasMention(items: seq<Item>, i: nat, k: nat, word: string)
    requires i < |items| && TagHasAt(items[i], k, word)
    requires SomeMention(word, items[1..]) <==> SomeTagHas(items[1..], word)
    ensures SomeMention(word, items)
  {
    if i == 0 {
      var body := items[0].body;
      assert Lower(body)[k..k + |word|] == Lower(body[k..k + |word|]);
      ContainsAt(Lower(body), k, word);
    } else {
      assert TagHasAt(items[1..][i - 1], k, word);
    }
  }

  // ---------- The whole repair ----------

  // Whether a worksheet has a cell that refers to the shared strings.
  ghost predicate SomeSheetUses(env: Env, zip: Archive) {
    exists n :: n in Names(zip) && SheetUses(env, zip, n)
  }

  predicate SheetUses(env: Env, zip: Archive, n: string) {
    |n| >= 14 && n[..14] == "xl/worksheets/" && EndsWith(n, ".xml") &&
    Part(zip, n).Some? && env.sharedCell(env.decode(Part(zip, n).value))
  }

  lemma {:induction false} UsesSharedSome(env: Env, zip: Archive, names: seq<string>)
    requires forall n :: n in names ==> Read(zip, n).Some?
    ensures UsesShared(env, zip, names).Some?
    ensures UsesShared(env, zip, names) == Some(true) <==>
      exists n :: n in names && IsSheet(n) && env.sharedCell(env.decode(Read(zip, n).value))
  {
    if names != [] {
      assert names == [names[0]] + names[1..];
      UsesSharedSome(env, zip, names[1..]);
    }
  }

  lemma UsesIff(env: Env, zip: Archive)
    requires Valid(env) && Plain(zip)
    ensures UsesShared(env, zip, env.order(NameList(zip))) == Some(SomeSheetUses(env, zip))
  {
    var names := env.order(NameList(zip));
    forall n ensures n in names <==> n in Names(zip) {
      ListedNames(zip, n);
    }
    forall n ensures Read(zip, n) == Part(zip, n) && (n in names ==> Read(zip, n).Some?) {
      PlainNames(zip, n);
      PlainPart(zip, n);
    }
    UsesSharedSome(env, zip, names);
    forall n | n in names
      ensures IsSheet(n) && env.sharedCell(env.decode(Read(zip, n).value)) <==> SheetUses(env, zip, n)
    {
      SheetIff(n);
    }
    var used := UsesShared(env, zip, names);
    assert used.Some?;
    if used.value {
      var n :| n in names && IsSheet(n) && env.sharedCell(env.decode(Read(zip, n).value));
      assert n in Names(zip) && SheetUses(env, zip, n);
    }
    if SomeSheetUses(env, zip) {
      var n :| n in Names(zip) && SheetUses(env, zip, n);
      assert n in names && IsSheet(n) && env.sharedCell(env.decode(Read(zip, n).value));
      assert used.value;
    }
  }

  lemma SheetIff(n: string)
    ensures IsSheet(n) <==> |n| >= 14 && n[..14] == "xl/worksheets/" && EndsWith(n, ".xml")
  {
  }

  ghost predicate NoSharedPart(zip: Archive) {
    forall n :: n in Names(zip) ==> !EndsWith(Lower(n), "sharedstrings.xml")
  }

  // A package without a shared-strings part whose two manifests consist of the tags `types` and `rels`.
  ghost predicate IsPackage(env: Env, zip: Archive, types: seq<Item>, rels: seq<Item>) {
    && Plain(zip) && NoSharedPart(zip)
    && AreItems(Pattern("<override", "partname=\"", "sharedstrings.xml"), types)
    && AreItems(Pattern("<relationship", "type=\"", "sharedstrings"), rels)
    && Part(zip, "[Content_Types].xml") == Some(env.encode(ManifestText(types)))
    && Part(zip, "xl/_rels/workbook.xml.rels") == Some(env.encode(ManifestText(rels)))
  }

  ghost predicate IsDeclared(types: seq<Item>, rels: seq<Item>) {
    SomeTagHas(types, "sharedstrings.xml") || SomeTagHas(rels, "sharedstrings")
  }

  lemma NoShared(zip: Archive)
    requires NoSharedPart(zip)
    ensures SharedNames(zip) == {}
  {
  }

  lemma DeclaredIff(env: Env, zip: Archive, types: seq<Item>, rels: seq<Item>)
    requires Valid(env) && IsPackage(env, zip, types, rels)
    ensures References(env, zip) == Some(IsDeclared(types, rels))
  {
    PlainReferences(env, zip);
    Patterns();
    ManifestMentions(OVERRIDE, types, TYPES_WORD);
    ManifestMentions(RELATIONSHIP, rels, RELS_WORD);
    MentionIff(types, TYPES_WORD);
    MentionIff(rels, RELS_WORD);
  }

  // Such a package is rewritten exactly if it declares shared strings that no worksheet uses.
  lemma RewrittenIff(env: Env, zip: Archive, types: seq<Item>, rels: seq<Item>)
    requires Valid(env) && IsPackage(env, zip, types, rels)
    ensures if IsDeclared(types, rels) && !SomeSheetUses(env, zip) then Repair(env, zip).Repaired?
            else Repair(env, zip) == NotNeeded
  {
    NoShared(zip);
    FoundShared(env, zip);
    DeclaredIff(env, zip, types, rels);
    UsesIff(env, zip);
    StripDefined(env, zip);
  }

  lemma CleanedManifest(env: Env, p: Pattern, items: seq<Item>, tag: string, attr: string)
    requires Valid(env) && IsPattern(p) && AreItems(p, items) && p.tag == "<" + tag && p.attr == attr + "=\""
    ensures Cleaned(env, Some(env.encode(ManifestText(items))), p) ==
      Some(env.encode(ManifestText(Without(items, tag, attr, p.suffix))))
  {
    DropFromManifest(p, items);
    RemainingIs(p, items, tag, attr);
    assert env.decode(env.encode(ManifestText(items))) == ManifestText(items);
  }

  lemma CleanedTypes(env: Env, types: seq<Item>)
    requires Valid(env) && AreItems(Pattern("<override", "partname=\"", "sharedstrings.xml"), types)
    ensures Cleaned(env, Some(env.encode(ManifestText(types))), OVERRIDE) ==
      Some(env.encode(ManifestText(Without(types, "override", "partname", "sharedstrings.xml"))))
  {
    OverridePattern();
    CleanedManifest(env, OVERRIDE, types, "override", "partname");
  }

  lemma CleanedRels(env: Env, rels: seq<Item>)
    requires Valid(env) && AreItems(Pattern("<relationship", "type=\"", "sharedstrings"), rels)
    ensures Cleaned(env, Some(env.encode(ManifestText(rels))), RELATIONSHIP) ==
      Some(env.encode(ManifestText(Without(rels, "relationship", "type", "sharedstrings"))))
  {
    RelationshipPattern();
    CleanedManifest(env, RELATIONSHIP, rels, "relationship", "type");
  }

  // Then its two manifests lose the declarations, and everything else stays as it is.
  lemma RewrittenParts(env: Env, zip: Archive, types: seq<Item>, rels: seq<Item>, n: string)
    requires Valid(env) && IsPackage(env, zip, types, rels) && Repair(env, zip).Repaired?
    ensures Part(Repair(env, zip).archive, n) ==
      if n == "[Content_Types].xml" then
        Some(env.encode(ManifestText(Without(types, "override", "partname", "sharedstrings.xml"))))
      else if n == "xl/_rels/workbook.xml.rels" then
        Some(env.encode(ManifestText(Without(rels, "relationship", "type", "sharedstrings"))))
      else Part(zip, n)
  {
    hide ManifestText, Without, Cleaned, Part, Repair, NoSharedPart, AreItems;
    NoShared(zip);
    RepairStrips(env, zip);
    StripParts(env, zip, n);
    CleanedTypes(env, types);
    CleanedRels(env, rels);
  }

  // A package with one shared-strings part is rewritten exactly if that part is elsewhere; it is then moved, its
  // content and all other parts staying as they are.
  lemma SharedPartMoved(env: Env, zip: Archive, path: string, n: string)
    requires Valid(env) && path in Names(zip) && EndsWith(Lower(path), "sharedstrings.xml")
    requires forall m :: m in Names(zip) && EndsWith(Lower(m), "sharedstrings.xml") ==> m == path
    ensures path == "xl/sharedStrings.xml" ==> Repair(env, zip) == NotNeeded
    ensures path != "xl/sharedStrings.xml" ==>
      Repair(env, zip).Repaired? &&
      Part(Repair(env, zip).archive, n) ==
        if n == "xl/sharedStrings.xml" then Part(zip, path) else if n == path then None else Part(zip, n)
  {
    FoundShared(env, zip);
    assert path in SharedNames(zip);
    if path != "xl/sharedStrings.xml" {
      RenameParts(zip, path, n);
    }
  }
}
