// What a repair of an XLSX package keeps, and that repairs come to an end (docreader/parser/xlsx_repair.py).
module XlsxSettles {
  import opened Wrappers
  import opened Text
  import opened XlsxManifest
  import opened XlsxRepair

  // ---------- Names of a rewritten package ----------

  // Every entry carries its normalised name.
  predicate Plain(files: Archive) {
    forall i :: 0 <= i < |files| ==> Slashed(files[i].name) == files[i].name
  }

  lemma SlashedTwice(name: string)
    ensures Slashed(Slashed(name)) == Slashed(name)
  {
  }

  lemma {:induction false} PopPlain(files: Archive, name: string)
    requires Plain(files)
    ensures Plain(Pop(files, name))
  {
    if files != [] {
      PopPlain(files[1..], name);
    }
  }

  lemma {:induction false} PutPlain(files: Archive, name: string, data: Bytes)
    requires Plain(files) && Slashed(name) == name
    ensures Plain(Put(files, name, data))
  {
    if files != [] {
      if files[0].name == name {
        PopPlain(files[1..], name);
      } else {
        PutPlain(files[1..], name, data);
      }
    }
  }

  lemma {:induction false} FilesPlain(zip: Archive, k: nat)
    requires k <= |zip|
    ensures Plain(FilesUpTo(zip, k))
  {
    if k > 0 {
      FilesPlain(zip, k - 1);
      ReadsEntry(zip, k - 1);
      SlashedTwice(zip[k - 1].name);
      PutPlain(FilesUpTo(zip, k - 1), Slashed(zip[k - 1].name), Read(zip, zip[k - 1].name).value);
    }
  }

  lemma {:induction false} PlainNames(files: Archive, n: string)
    requires Plain(files)
    ensures n in Names(files) <==> Read(files, n).Some?
  {
    if files != [] {
      PlainNames(files[1..], n);
    }
  }

  // In a plain archive the entries are read under their normalised names.
  lemma PlainPart(files: Archive, n: string)
    requires Plain(files)
    ensures Read(files, n) == Part(files, n)
  {
    if Read(files, n).None? {
      PlainNames(files, n);
      PartNames(files, n);
    } else {
      PlainReadsPart(files, n);
    }
  }

  lemma {:induction false} PlainReadsPart(files: Archive, n: string)
    requires Plain(files)
    ensures Read(files, n) == Part(files, n)
    decreases |files|
  {
    if files != [] {
      var k := |files| - 1;
      if files[k].name == n {
        ReadLast(files, k);
      } else {
        PlainReadsPart(files[..k], n);
        assert files == files[..k] + [files[k]];
        ReadAppend(files[..k], files[k], n);
      }
    }
  }

  lemma {:induction false} ReadAppend(files: Archive, e: Entry, n: string)
    ensures Read(files + [e], n) == if e.name == n then Some(e.data) else Read(files, n)
  {
    if files == [] {
      assert [] + [e] == [e] && [e][1..] == [];
    } else {
      assert (files + [e])[1..] == files[1..] + [e];
      ReadAppend(files[1..], e, n);
    }
  }

  lemma {:induction false} ListedNames(zip: Archive, n: string)
    ensures n in SlashedNames(NameList(zip)) <==> n in Names(zip)
  {
    var list := NameList(zip);
    if zip != [] {
      ListedNames(zip[1..], n);
      var rest := NameList(zip[1..]);
      assert list == [zip[0].name] + rest;
      if n in SlashedNames(rest) {
        var i :| 0 <= i < |rest| && n == Slashed(rest[i]);
        assert list[i + 1] == rest[i];
      }
      if n in SlashedNames(list) {
        var i :| 0 <= i < |list| && n == Slashed(list[i]);
        if i > 0 {
          assert rest[i - 1] == list[i];
        }
      }
      assert list[0] == zip[0].name;
    }
  }

  // ---------- What a repair changes ----------

  predicate IsManifest(name: string) {
    name == CONTENT_TYPES || name == WORKBOOK_RELS
  }

  lemma {:induction false} FindFirst(names: seq<string>)
    ensures var found := FindSharedStrings(names);
      (found.Some? ==> found.value in names && IsSharedStrings(found.value)) &&
      (found.None? ==> forall n :: n in names ==> !IsSharedStrings(n))
  {
    if names != [] {
      FindFirst(names[1..]);
    }
  }

  lemma CanonicalName()
    ensures Slashed(SST_PART) == SST_PART && IsSharedStrings(SST_PART)
  {
    assert Lower(SST_PART)[3..] == "sharedstrings.xml";
  }

  lemma ContentTypesName()
    ensures Slashed(CONTENT_TYPES) == CONTENT_TYPES && !IsSharedStrings(CONTENT_TYPES)
  {
    assert "sharedstrings.xml"[0] == 's' && Lower(CONTENT_TYPES)[2] == 'o';
  }

  lemma WorkbookRelsName()
    ensures Slashed(WORKBOOK_RELS) == WORKBOOK_RELS && !IsSharedStrings(WORKBOOK_RELS)
    ensures CONTENT_TYPES != WORKBOOK_RELS
  {
    assert "sharedstrings.xml"[16] == 'l';
    assert |WORKBOOK_RELS| == 26 && Lower(WORKBOOK_RELS)[25] == 's';
    assert CONTENT_TYPES[0] == '[' && WORKBOOK_RELS[0] == 'x';
  }

  lemma RenameParts(zip: Archive, path: string, n: string)
    requires path in Names(zip) && IsSharedStrings(path) && path != SST_PART
    ensures Read(Files(zip), path).Some?
    ensures var out := Rename(Files(zip), path);
      Plain(out) && Part(out, n) == (if n == SST_PART then Part(zip, path)
                                     else if n == path then None else Part(zip, n))
  {
    FilesPart(zip, path);
    PartNames(zip, path);
    FilesPart(zip, n);
    var files := Files(zip);
    FilesPlain(zip, |zip|);
    PopPlain(files, path);
    CanonicalName();
    var data := Read(files, path).value;
    PutPlain(Pop(files, path), SST_PART, data);
    PopReads(files, path, n);
    PutReads(Pop(files, path), SST_PART, data, n);
    PlainPart(Rename(files, path), n);
  }

  // The part of a manifest after its self-closing mentions are deleted.
  function Cleaned(env: Env, part: Option<Bytes>, p: Pattern): Option<Bytes> {
    match part
    case None => None
    case Some(data) => Some(env.encode(Drop(p, env.decode(data))))
  }

  lemma RewriteParts(env: Env, files: Archive, name: string, p: Pattern, n: string)
    requires Plain(files) && Slashed(name) == name && Rewrite(env, files, name, p).Some?
    ensures var out := Rewrite(env, files, name, p).value;
      && Plain(out)
      && Read(out, n) == if n == name then Cleaned(env, Read(files, n), p) else Read(files, n)
  {
    match Read(files, name) {
      case None =>
      case Some(data) =>
        var cleaned := env.encode(Drop(p, env.decode(data)));
        PutPlain(files, name, cleaned);
        PutReads(files, name, cleaned, n);
    }
  }

  lemma StripParts(env: Env, zip: Archive, n: string)
    requires StripManifest(env, Files(zip)).Some?
    ensures var out := StripManifest(env, Files(zip)).value;
      && Plain(out)
      && Part(out, n) ==
        if n == CONTENT_TYPES then Cleaned(env, Part(zip, n), OVERRIDE)
        else if n == WORKBOOK_RELS then Cleaned(env, Part(zip, n), RELATIONSHIP)
        else Part(zip, n)
  {
    ContentTypesName();
    WorkbookRelsName();
    FilesPlain(zip, |zip|);
    FilesPart(zip, n);
    var files := Files(zip);
    RewriteParts(env, files, CONTENT_TYPES, OVERRIDE, n);
    var updated := Rewrite(env, files, CONTENT_TYPES, OVERRIDE).value;
    RewriteParts(env, updated, WORKBOOK_RELS, RELATIONSHIP, n);
    PlainPart(StripManifest(env, files).value, n);
  }

  // ---------- Repairs come to an end ----------

  function SharedNames(zip: Archive): set<string> {
    set n | n in Names(zip) && IsSharedStrings(n)
  }

  predicate Mentioned(env: Env, zip: Archive) {
    References(env, zip) == Some(true)
  }

  // How many more repairs a package can take: one for each misplaced shared-strings part, or the deletion of the
  // mentions if there is no such part at all.
  function RepairsLeft(env: Env, zip: Archive): nat {
    |SharedNames(zip) - {SST_PART}| + if SharedNames(zip) == {} && Mentioned(env, zip) then 1 else 0
  }

  predicate PartMentions(env: Env, part: Option<Bytes>, word: string) {
    part.Some? && Mentions(word, env.decode(part.value))
  }

  // Whether a mention survives the deletion.
  predicate Survives(env: Env, zip: Archive) {
    PartMentions(env, Cleaned(env, Part(zip, CONTENT_TYPES), OVERRIDE), TYPES_WORD) ||
    PartMentions(env, Cleaned(env, Part(zip, WORKBOOK_RELS), RELATIONSHIP), RELS_WORD)
  }

  // A part that is missing or reads as a manifest: tags with white space between them.
  ghost predicate IsManifestPart(env: Env, part: Option<Bytes>, p: Pattern) {
    part.Some? ==> exists items :: AreItems(p, items) && ManifestText(items) == env.decode(part.value)
  }

  // A manifest part in which every tag that mentions the word is a double-quoted self-closing element.
  ghost predicate OnlyElements(env: Env, part: Option<Bytes>, p: Pattern, word: string) {
    part.Some? ==>
      exists items :: AreItems(p, items) && ManifestText(items) == env.decode(part.value) && !SomeOther(p, word, items)
  }

  ghost predicate HasManifests(env: Env, zip: Archive) {
    IsManifestPart(env, Part(zip, CONTENT_TYPES), OVERRIDE) &&
    IsManifestPart(env, Part(zip, WORKBOOK_RELS), RELATIONSHIP)
  }

  ghost predicate OnlySelfClosing(env: Env, zip: Archive) {
    OnlyElements(env, Part(zip, CONTENT_TYPES), OVERRIDE, TYPES_WORD) &&
    OnlyElements(env, Part(zip, WORKBOOK_RELS), RELATIONSHIP, RELS_WORD)
  }

  // If shared strings are mentioned though there are none, all mentions are double-quoted self-closing elements.
  ghost predicate SelfClosing(env: Env, zip: Archive) {
    SharedNames(zip) == {} && Mentioned(env, zip) ==> OnlySelfClosing(env, zip)
  }

  lemma OverridePattern()
    ensures IsPattern(OVERRIDE)
  {
    assert OVERRIDE.tag == "<override" && OVERRIDE.attr == "partname=\"";
  }

  lemma RelationshipPattern()
    ensures IsPattern(RELATIONSHIP)
  {
    assert RELATIONSHIP.tag == "<relationship" && RELATIONSHIP.attr == "type=\"";
  }

  lemma TypesWord()
    ensures IsWord(TYPES_WORD)
  {
  }

  lemma RelsWord()
    ensures IsWord(RELS_WORD)
  {
  }

  lemma Patterns()
    ensures IsPattern(OVERRIDE) && IsPattern(RELATIONSHIP) && IsWord(TYPES_WORD) && IsWord(RELS_WORD)
  {
    OverridePattern();
    RelationshipPattern();
    TypesWord();
    RelsWord();
  }

  // The deletion on one part, as a condition on its text.
  lemma PartSurvives(env: Env, part: Option<Bytes>, p: Pattern, word: string)
    requires Valid(env) && IsPattern(p) && IsWord(word) && IsManifestPart(env, part, p)
    ensures PartMentions(env, Cleaned(env, part, p), word) <==> !OnlyElements(env, part, p, word)
  {
    if part.Some? {
      var text := env.decode(part.value);
      forall items | AreItems(p, items) && ManifestText(items) == text
        ensures Mentions(word, Drop(p, text)) <==> SomeOther(p, word, items)
      {
        MentionSurvives(p, items, word);
      }
      var items :| AreItems(p, items) && ManifestText(items) == text;
    }
  }

  // What the deletion leaves is a manifest from which nothing more is deleted.
  lemma CleanedAgain(env: Env, part: Option<Bytes>, p: Pattern)
    requires Valid(env) && IsPattern(p) && IsManifestPart(env, part, p)
    ensures var cleaned := Cleaned(env, part, p);
      IsManifestPart(env, cleaned, p) && Decodable(env, cleaned) && Cleaned(env, cleaned, p) == cleaned
  {
    if part.Some? {
      var items :| AreItems(p, items) && ManifestText(items) == env.decode(part.value);
      DropFromManifest(p, items);
      RemainingItems(p, items);
      DropTwice(p, items);
      var text := Drop(p, env.decode(part.value));
      assert env.decode(env.encode(text)) == text;
    }
  }

  // A mention survives exactly if some tag that mentions shared strings is no double-quoted self-closing element.
  lemma SurvivesIff(env: Env, zip: Archive)
    requires Valid(env) && HasManifests(env, zip)
    ensures Survives(env, zip) <==> !OnlySelfClosing(env, zip)
  {
    Patterns();
    PartSurvives(env, Part(zip, CONTENT_TYPES), OVERRIDE, TYPES_WORD);
    PartSurvives(env, Part(zip, WORKBOOK_RELS), RELATIONSHIP, RELS_WORD);
  }

  // Whether a part of a plain archive is looked up and read under the same name.
  lemma PlainReferences(env: Env, zip: Archive)
    requires Plain(zip)
    ensures References(env, zip) == Some(
      var types, rels := Part(zip, CONTENT_TYPES), Part(zip, WORKBOOK_RELS);
      (types.Some? && Mentions(TYPES_WORD, env.decode(types.value))) ||
      (rels.Some? && Mentions(RELS_WORD, env.decode(rels.value))))
  {
    PlainPart(zip, CONTENT_TYPES);
    PlainPart(zip, WORKBOOK_RELS);
    PlainNames(zip, CONTENT_TYPES);
    PlainNames(zip, WORKBOOK_RELS);
  }

  lemma FoundShared(env: Env, zip: Archive)
    requires Valid(env)
    ensures var found := FindSharedStrings(env.order(NameList(zip)));
      && (found.Some? ==> found.value in SharedNames(zip))
      && (found.None? ==> SharedNames(zip) == {})
  {
    var names := env.order(NameList(zip));
    FindFirst(names);
    forall n ensures n in names <==> n in Names(zip) {
      ListedNames(zip, n);
    }
  }

  lemma RenameNames(zip: Archive, path: string)
    requires path in SharedNames(zip) && path != SST_PART
    ensures Read(Files(zip), path).Some?
    ensures SharedNames(Rename(Files(zip), path)) == SharedNames(zip) - {path} + {SST_PART}
  {
    RenameParts(zip, path, path);
    CanonicalName();
    var out := Rename(Files(zip), path);
    forall n ensures n in SharedNames(out) <==> n in SharedNames(zip) - {path} + {SST_PART} {
      RenameParts(zip, path, n);
      PartNames(out, n);
      PartNames(zip, n);
      PartNames(zip, path);
    }
  }

  lemma StripNames(env: Env, zip: Archive)
    requires StripManifest(env, Files(zip)).Some?
    ensures SharedNames(StripManifest(env, Files(zip)).value) == SharedNames(zip)
  {
    var out := StripManifest(env, Files(zip)).value;
    forall n ensures n in SharedNames(out) <==> n in SharedNames(zip) {
      StripParts(env, zip, n);
      PartNames(out, n);
      PartNames(zip, n);
    }
  }

  lemma StripMentions(env: Env, zip: Archive)
    requires StripManifest(env, Files(zip)).Some?
    ensures References(env, StripManifest(env, Files(zip)).value) == Some(Survives(env, zip))
  {
    var out := StripManifest(env, Files(zip)).value;
    StripParts(env, zip, CONTENT_TYPES);
    StripParts(env, zip, WORKBOOK_RELS);
    WorkbookRelsName();
    PlainReferences(env, out);
  }

  lemma FewerMisplaced(shared: set<string>, path: string)
    requires path in shared && path != SST_PART
    ensures |shared - {path} + {SST_PART} - {SST_PART}| < |shared - {SST_PART}|
  {
    assert shared - {path} + {SST_PART} - {SST_PART} == shared - {SST_PART} - {path};
    assert path in shared - {SST_PART};
  }

  lemma RenameProgress(env: Env, zip: Archive, path: string)
    requires path in SharedNames(zip) && path != SST_PART
    ensures Read(Files(zip), path).Some?
    ensures var out := Rename(Files(zip), path);
      RepairsLeft(env, out) < RepairsLeft(env, zip) && SelfClosing(env, out) && Plain(out)
  {
    RenameNames(zip, path);
    RenameParts(zip, path, SST_PART);
    FewerMisplaced(SharedNames(zip), path);
    assert SST_PART in SharedNames(Rename(Files(zip), path));
  }

  lemma StripProgress(env: Env, zip: Archive)
    requires Valid(env) && SharedNames(zip) == {} && Mentioned(env, zip) && OnlySelfClosing(env, zip)
    requires StripManifest(env, Files(zip)).Some?
    ensures var out := StripManifest(env, Files(zip)).value;
      RepairsLeft(env, out) < RepairsLeft(env, zip) && SelfClosing(env, out)
  {
    StripNames(env, zip);
    StripMentions(env, zip);
    SurvivesIff(env, zip);
  }

  // Every repair leaves strictly fewer repairs to do.
  lemma RepairProgress(env: Env, zip: Archive)
    requires Valid(env) && SelfClosing(env, zip) && Repair(env, zip).Repaired?
    ensures var out := Repair(env, zip).archive;
      RepairsLeft(env, out) < RepairsLeft(env, zip) && SelfClosing(env, out) && Plain(out)
  {
    FoundShared(env, zip);
    var found := FindSharedStrings(env.order(NameList(zip)));
    if found.Some? {
      RenameProgress(env, zip, found.value);
    } else {
      StripParts(env, zip, SST_PART);
      StripProgress(env, zip);
    }
  }

  // A rewritten package with at most the canonical shared-strings part needs no repair: nothing is renamed, and no
  // part is missing from what the manifests mention.
  lemma SettledNeedsNone(env: Env, zip: Archive)
    requires Valid(env) && Plain(zip) && RepairsLeft(env, zip) == 0
    ensures Repair(env, zip) == NotNeeded
  {
    FoundShared(env, zip);
    PlainReferences(env, zip);
    var found := FindSharedStrings(env.order(NameList(zip)));
    if found.Some? {
      assert found.value in SharedNames(zip) && SharedNames(zip) - {SST_PART} == {};
    }
  }

  // A package with one shared-strings part, or none, is repaired once and for all.
  lemma OneRepairSuffices(env: Env, zip: Archive)
    requires Valid(env) && SelfClosing(env, zip) && Repair(env, zip).Repaired?
    requires |SharedNames(zip)| <= 1
    ensures Repair(env, Repair(env, zip).archive) == NotNeeded
  {
    RepairProgress(env, zip);
    AtMostOne(SharedNames(zip), SST_PART);
    SettledNeedsNone(env, Repair(env, zip).archive);
  }

  lemma AtMostOne(s: set<string>, n: string)
    requires |s| <= 1
    ensures |s - {n}| <= 1 && (s != {} ==> |s| == 1)
  {
    assert |s - {n}| <= |s| by {
      assert s == (s - {n}) + (s * {n});
    }
  }

  // Whether two packages hold the same parts, apart from shared strings and the manifests.
  ghost predicate SameParts(a: Archive, b: Archive) {
    forall n :: !IsSharedStrings(n) && !IsManifest(n) ==> Part(a, n) == Part(b, n)
  }

  // A repair moves the shared strings to their place byte for byte and touches nothing else, or deletes mentions
  // from the manifests and touches nothing else.
  lemma RepairKeeps(env: Env, zip: Archive)
    requires Valid(env) && Repair(env, zip).Repaired?
    ensures var out := Repair(env, zip).archive;
      && SameParts(out, zip)
      && (SharedNames(zip) != {} ==>
            && Part(out, CONTENT_TYPES) == Part(zip, CONTENT_TYPES)
            && Part(out, WORKBOOK_RELS) == Part(zip, WORKBOOK_RELS)
            && exists path :: path in SharedNames(zip) && Part(out, SST_PART) == Part(zip, path))
      && (SharedNames(zip) == {} ==> SharedNames(out) == {})
  {
    var out := Repair(env, zip).archive;
    FoundShared(env, zip);
    var found := FindSharedStrings(env.order(NameList(zip)));
    ContentTypesName();
    WorkbookRelsName();
    CanonicalName();
    if found.Some? {
      forall n ensures Part(out, n) == (if n == SST_PART then Part(zip, found.value)
                                        else if n == found.value then None else Part(zip, n)) {
        RenameParts(zip, found.value, n);
      }
    } else {
      StripNames(env, zip);
      forall n | !IsManifest(n) ensures Part(out, n) == Part(zip, n) {
        StripParts(env, zip, n);
      }
    }
  }

  function OtherNames(zip: Archive): set<string> {
    set n | n in Names(zip) && !IsSharedStrings(n)
  }

  lemma RepairKeepsNames(env: Env, zip: Archive)
    requires Valid(env) && Repair(env, zip).Repaired?
    ensures OtherNames(Repair(env, zip).archive) == OtherNames(zip)
  {
    var out := Repair(env, zip).archive;
    FoundShared(env, zip);
    CanonicalName();
    var found := FindSharedStrings(env.order(NameList(zip)));
    forall n | !IsSharedStrings(n) ensures n in Names(out) <==> n in Names(zip) {
      PartNames(out, n);
      PartNames(zip, n);
      if found.Some? {
        RenameParts(zip, found.value, n);
      } else {
        StripParts(env, zip, n);
      }
    }
  }

  // ---------- The repair as written ----------

  lemma RepairPromise(env: Env, zip: Archive)
    ensures Valid(env) && Repair(env, zip).Repaired? ==>
      var out := Repair(env, zip).archive;
      && SameParts(out, zip) && OtherNames(out) == OtherNames(zip)
      && (SelfClosing(env, zip) ==> RepairsLeft(env, out) < RepairsLeft(env, zip) && SelfClosing(env, out))
  {
    if Valid(env) && Repair(env, zip).Repaired? {
      RepairKeeps(env, zip);
      RepairKeepsNames(env, zip);
      if SelfClosing(env, zip) {
        RepairProgress(env, zip);
      }
    }
  }

  method RepairXlsxBytes(env: Env, zip: Archive) returns (result: RepairResult)
    ensures result == Repair(env, zip)
    ensures Valid(env) && result.Repaired? ==>
      SameParts(result.archive, zip) && OtherNames(result.archive) == OtherNames(zip)
    ensures Valid(env) && SelfClosing(env, zip) && result.Repaired? ==>
      RepairsLeft(env, result.archive) < RepairsLeft(env, zip) && SelfClosing(env, result.archive)
  {
    RepairPromise(env, zip);
    var names := env.order(NameList(zip));
    var path := FindSharedStringsPath(names);
    if path.Some? {
      if path.value == SST_PART {
        return NotNeeded;
      }
      var files := CollectFiles(zip);
      if Read(files, path.value).None? {
        return Failed;
      }
      return Repaired(Rename(files, path.value));
    }
    var referenced := References(env, zip);
    if referenced.None? {
      return Failed;
    }
    if !referenced.value {
      return NotNeeded;
    }
    var used := WorksheetsUseSharedStringCells(env, zip, names);
    if used.None? {
      return Failed;
    }
    if used.value {
      return NotNeeded;
    }
    var files := CollectFiles(zip);
    var stripped := StripManifest(env, files);
    if stripped.None? {
      return Failed;
    }
    return Repaired(stripped.value);
  }

  // ---------- Repairs that do not end ----------

  // A package none of whose repairs can help: the sheets use no shared strings, and a mention survives.
  ghost predicate Stuck(env: Env, zip: Archive) {
    && Plain(zip) && SharedNames(zip) == {} && Mentioned(env, zip)
    && HasManifests(env, zip) && !OnlySelfClosing(env, zip)
    && UsesShared(env, zip, env.order(NameList(zip))) == Some(false)
    && StripManifest(env, Files(zip)).Some?
  }

  lemma {:induction false} UsesSharedFalse(env: Env, zip: Archive, names: seq<string>)
    ensures UsesShared(env, zip, names) == Some(false) <==>
            forall n :: n in names && IsSheet(n) ==>
              Read(zip, n).Some? && !env.sharedCell(env.decode(Read(zip, n).value))
  {
    if names != [] {
      UsesSharedFalse(env, zip, names[1..]);
      assert names == [names[0]] + names[1..];
    }
  }

  lemma SheetNames(n: string)
    requires IsSheet(n)
    ensures !IsManifest(n)
  {
    assert n[0] == 'x' && n[3] == 'w';
    assert CONTENT_TYPES[0] == '[' && WORKBOOK_RELS[3] == '_';
  }

  lemma StripSheets(env: Env, zip: Archive, out: Archive)
    requires Valid(env) && Plain(zip) && StripManifest(env, Files(zip)) == Some(out)
    requires UsesShared(env, zip, env.order(NameList(zip))) == Some(false)
    ensures UsesShared(env, out, env.order(NameList(out))) == Some(false)
  {
    var names, outNames := env.order(NameList(zip)), env.order(NameList(out));
    UsesSharedFalse(env, zip, names);
    UsesSharedFalse(env, out, outNames);
    forall n | n in outNames && IsSheet(n)
      ensures Read(out, n).Some? && !env.sharedCell(env.decode(Read(out, n).value))
    {
      SheetNames(n);
      StripParts(env, zip, n);
      ListedNames(out, n);
      ListedNames(zip, n);
      PartNames(out, n);
      PartNames(zip, n);
      PlainPart(out, n);
      PlainPart(zip, n);
    }
  }

  predicate Decodable(env: Env, part: Option<Bytes>) {
    part.Some? ==> env.isUtf8(part.value)
  }

  lemma StripDefined(env: Env, zip: Archive)
    ensures StripManifest(env, Files(zip)).Some? <==>
            Decodable(env, Part(zip, CONTENT_TYPES)) && Decodable(env, Part(zip, WORKBOOK_RELS))
  {
    FilesPart(zip, CONTENT_TYPES);
    FilesPart(zip, WORKBOOK_RELS);
    ContentTypesName();
    WorkbookRelsName();
    FilesPlain(zip, |zip|);
    if Rewrite(env, Files(zip), CONTENT_TYPES, OVERRIDE).Some? {
      RewriteParts(env, Files(zip), CONTENT_TYPES, OVERRIDE, WORKBOOK_RELS);
    }
  }

  lemma StripAgain(env: Env, zip: Archive, out: Archive)
    requires Valid(env) && HasManifests(env, zip) && StripManifest(env, Files(zip)) == Some(out)
    ensures StripManifest(env, Files(out)).Some? && HasManifests(env, out)
    ensures Survives(env, out) == Survives(env, zip)
  {
    Patterns();
    StripParts(env, zip, CONTENT_TYPES);
    StripParts(env, zip, WORKBOOK_RELS);
    WorkbookRelsName();
    CleanedAgain(env, Part(zip, CONTENT_TYPES), OVERRIDE);
    CleanedAgain(env, Part(zip, WORKBOOK_RELS), RELATIONSHIP);
    StripDefined(env, out);
  }

  // Repairing such a package gives such a package again.
  lemma StuckStays(env: Env, zip: Archive)
    requires Valid(env) && Stuck(env, zip)
    ensures Repair(env, zip).Repaired? && Stuck(env, Repair(env, zip).archive)
  {
    FoundShared(env, zip);
    var out := StripManifest(env, Files(zip)).value;
    assert Repair(env, zip) == Repaired(out);
    StripParts(env, zip, CONTENT_TYPES);
    StripNames(env, zip);
    StripMentions(env, zip);
    StripSheets(env, zip, out);
    StripAgain(env, zip, out);
    SurvivesIff(env, zip);
    SurvivesIff(env, out);
  }

  // ---------- Two packages ----------

  // A package with nothing but a content-types part of one tag.
  function OneTag(env: Env, body: string): Archive {
    [Entry(CONTENT_TYPES, env.encode(ManifestText([Tag(body)])))]
  }

  lemma OneTagParts(env: Env, body: string)
    ensures var zip, data := OneTag(env, body), env.encode(ManifestText([Tag(body)]));
      && Plain(zip) && Names(zip) == {CONTENT_TYPES}
      && Part(zip, CONTENT_TYPES) == Some(data) && Part(zip, WORKBOOK_RELS) == None
      && Read(zip, CONTENT_TYPES) == Some(data)
  {
    var zip := OneTag(env, body);
    ContentTypesName();
    WorkbookRelsName();
    assert zip[1..] == [] && Names([]) == {};
    assert zip[..0] == [];
    PlainPart(zip, CONTENT_TYPES);
  }

  lemma OneTagUnshared(env: Env, body: string)
    requires Valid(env)
    ensures var zip := OneTag(env, body);
      SharedNames(zip) == {} && UsesShared(env, zip, env.order(NameList(zip))) == Some(false)
  {
    var zip := OneTag(env, body);
    OneTagParts(env, body);
    ContentTypesName();
    var names := env.order(NameList(zip));
    UsesSharedFalse(env, zip, names);
    forall n | n in names ensures !IsSheet(n) {
      ListedNames(zip, n);
      if IsSheet(n) {
        SheetNames(n);
      }
    }
  }

  // With a tag that is well-formed and mentions shared strings without being an element the deletion is for.
  lemma OneTagStuck(env: Env, body: string)
    requires Valid(env) && IsItem(OVERRIDE, Tag(body)) && OtherMention(OVERRIDE, TYPES_WORD, Tag(body))
    ensures Stuck(env, OneTag(env, body))
  {
    var zip, items := OneTag(env, body), [Tag(body)];
    OneTagParts(env, body);
    OneTagUnshared(env, body);
    Patterns();
    assert AreItems(OVERRIDE, items);
    assert IsManifestPart(env, Part(zip, CONTENT_TYPES), OVERRIDE);
    assert OtherMention(OVERRIDE, TYPES_WORD, items[0]);
    MentionSurvives(OVERRIDE, items, TYPES_WORD);
    SurvivesIff(env, zip);
    assert SomeMention(TYPES_WORD, items);
    ManifestMentions(OVERRIDE, items, TYPES_WORD);
    PlainReferences(env, zip);
    StripDefined(env, zip);
  }

  lemma OneTagSettles(env: Env, body: string)
    requires Valid(env) && '<' !in body && '>' !in body && QuotesClosed(OVERRIDE, body) && IsElement(OVERRIDE, body)
    ensures OnlySelfClosing(env, OneTag(env, body))
  {
    OneTagParts(env, body);
    var items := [Tag(body)];
    assert AreItems(OVERRIDE, items) && !SomeOther(OVERRIDE, TYPES_WORD, items);
  }

  // A tag without double quotes that mentions shared strings: the repair rewrites the package and changes nothing.
  lemma UnquotedStuck(env: Env, before: string, mention: string, after: string)
    requires Valid(env) && Unquoted(before) && Unquoted(mention) && Unquoted(after) && Lower(mention) == TYPES_WORD
    ensures Stuck(env, OneTag(env, before + mention + after))
  {
    var body := before + mention + after;
    assert Lower(body)[|before|..|before| + |mention|] == Lower(mention);
    ContainsAt(Lower(body), |before|, TYPES_WORD);
    Patterns();
    NoQuotes(OVERRIDE, body);
    NotElement(OVERRIDE, body);
    OneTagStuck(env, body);
  }

  predicate Unquoted(s: string) {
    forall i :: 0 <= i < |s| ==> s[i] !in {'<', '>', '"'}
  }

  lemma OneTagFiles(env: Env, body: string)
    ensures Files(OneTag(env, body)) == OneTag(env, body)
  {
    var zip := OneTag(env, body);
    ContentTypesName();
    ReadsEntry(zip, 0);
    assert zip[1..] == [];
    assert FilesUpTo(zip, 0) == [];
    assert Put([], CONTENT_TYPES, zip[0].data) == [Entry(CONTENT_TYPES, zip[0].data)];
  }

  // Such a tag stays as it is, and with it the whole package: the repair gives back what it was given.
  lemma UnquotedUnchanged(env: Env, before: string, mention: string, after: string)
    requires Valid(env) && Unquoted(before) && Unquoted(mention) && Unquoted(after) && Lower(mention) == TYPES_WORD
    ensures var zip := OneTag(env, before + mention + after); Repair(env, zip) == Repaired(zip)
  {
    var body := before + mention + after;
    var zip := OneTag(env, body);
    UnquotedStuck(env, before, mention, after);
    FoundShared(env, zip);
    OneTagKept(env, body);
  }

  lemma OneTagKept(env: Env, body: string)
    requires Valid(env) && Unquoted(body)
    ensures StripManifest(env, Files(OneTag(env, body))) == Some(OneTag(env, body))
  {
    var zip, items := OneTag(env, body), [Tag(body)];
    var text := ManifestText(items);
    OneTagFiles(env, body);
    OneTagParts(env, body);
    WorkbookRelsName();
    Patterns();
    NoQuotes(OVERRIDE, body);
    NotElement(OVERRIDE, body);
    assert AreItems(OVERRIDE, items);
    DropFromManifest(OVERRIDE, items);
    assert Remaining(OVERRIDE, items) == items;
    assert Drop(OVERRIDE, text) == text;
    assert env.decode(env.encode(text)) == text;
    assert zip[1..] == [] && Pop([], CONTENT_TYPES) == [];
    assert Put(zip, CONTENT_TYPES, env.encode(text)) == zip;
    PlainPart(zip, WORKBOOK_RELS);
  }

  lemma RepairStrips(env: Env, zip: Archive)
    requires Valid(env) && SharedNames(zip) == {} && Repair(env, zip).Repaired?
    ensures StripManifest(env, Files(zip)) == Some(Repair(env, zip).archive)
  {
    FoundShared(env, zip);
  }

  lemma MentionText()
    ensures Unquoted("sharedStrings.xml") && Lower("sharedStrings.xml") == TYPES_WORD
  {
  }

  lemma SingleQuotedText()
    ensures Unquoted("Override PartName='/xl/") && Unquoted("'/")
  {
  }

  // The part name in single quotes, as XML allows.
  lemma SingleQuotedUnchanged(env: Env)
    requires Valid(env)
    ensures var zip := OneTag(env, "Override PartName='/xl/" + "sharedStrings.xml" + "'/");
      Repair(env, zip) == Repaired(zip)
  {
    MentionText();
    SingleQuotedText();
    UnquotedUnchanged(env, "Override PartName='/xl/", "sharedStrings.xml", "'/");
  }

  lemma NoQuoteIn(s: string)
    requires Unquoted(s)
    ensures '"' !in Lower(s)
  {
    forall i | 0 <= i < |s| ensures Lower(s)[i] != '"' {
      assert s[i] != '"';
    }
  }

  lemma QuoteLast(s: string, quoted: string)
    requires s + "\"" == quoted
    ensures quoted[|quoted| - 1] == '"' && quoted[..|quoted| - 1] == s
  {
  }

  // A tag with the part name in double quotes, the tag and the attribute in any case: the repair deletes it.
  lemma QuotedSettles(env: Env, tag: string, attr: string, value: string)
    requires Valid(env) && Unquoted(tag) && Unquoted(attr) && Unquoted(value)
    requires Lower("<" + tag) == OVERRIDE.tag && Lower(attr) + "\"" == OVERRIDE.attr
    requires EndsWith(Lower(value), OVERRIDE.suffix) && !EndsWith(Lower(value) + "\"", OVERRIDE.attr)
    ensures OnlySelfClosing(env, OneTag(env, tag + " " + attr + "\"" + (value + "\"/")))
  {
    var body := tag + " " + attr + "\"" + (value + "\"/");
    OverridePattern();
    QuoteLast(Lower(attr), OVERRIDE.attr);
    NoQuoteIn(attr);
    WrittenElement(OVERRIDE, tag, " ", attr, value);
    OneTagSettles(env, body);
  }

  lemma DoubleQuotedText()
    ensures Unquoted("Override") && Unquoted("PartName=") && Unquoted("/xl/sharedStrings.xml")
  {
  }

  lemma DoubleQuotedTag()
    ensures Lower("<" + "Override") == OVERRIDE.tag && Lower("PartName=") + "\"" == OVERRIDE.attr
  {
  }

  lemma EndsDiffer(s: string, quoted: string)
    requires s != "" && |quoted| >= 2 && s[|s| - 1] != quoted[|quoted| - 2]
    ensures !EndsWith(s + "\"", quoted)
  {
    var t := s + "\"";
    if |quoted| <= |t| {
      assert t[|t| - |quoted|..][|quoted| - 2] == s[|s| - 1];
    }
  }

  lemma DoubleQuotedEnd()
    ensures !EndsWith(Lower("/xl/sharedStrings.xml") + "\"", OVERRIDE.attr)
  {
    assert OVERRIDE.attr == "partname=\"";
    EndsDiffer(Lower("/xl/sharedStrings.xml"), OVERRIDE.attr);
  }

  lemma DoubleQuotedValue()
    ensures EndsWith(Lower("/xl/sharedStrings.xml"), OVERRIDE.suffix)
  {
  }

  // The same package with the part name in double quotes.
  lemma DoubleQuotedSettles(env: Env)
    requires Valid(env)
    ensures OnlySelfClosing(env, OneTag(env, "Override" + " " + "PartName=" + "\"" + ("/xl/sharedStrings.xml" + "\"/")))
  {
    DoubleQuotedText();
    DoubleQuotedTag();
    DoubleQuotedValue();
    DoubleQuotedEnd();
    QuotedSettles(env, "Override", "PartName=", "/xl/sharedStrings.xml");
  }
}
