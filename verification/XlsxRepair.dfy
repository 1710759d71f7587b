// Repair of XLSX packages whose shared-strings part is missing or misplaced (docreader/parser/xlsx_repair.py).
module XlsxRepair {
  import opened Wrappers
  import opened Text
  import opened XlsxManifest

  type Bytes = seq<bv8>

  datatype Entry = Entry(name: string, data: Bytes)

  // A ZIP archive: its entries in order. As a dictionary of parts, the names are distinct.
  type Archive = seq<Entry>

  const SST_PART := "xl/sharedStrings.xml"
  const CONTENT_TYPES := "[Content_Types].xml"
  const WORKBOOK_RELS := "xl/_rels/workbook.xml.rels"

  // What the repair relies on: the order in which the set of normalised names of a name list is iterated, UTF-8,
  // and the search for a shared-string cell in a worksheet.
  datatype Env = Env(
    order: seq<string> -> seq<string>,
    decode: Bytes -> string,
    isUtf8: Bytes -> bool,
    encode: string -> Bytes,
    sharedCell: string -> bool)

  ghost predicate Valid(env: Env) {
    && (forall list, n :: n in env.order(list) <==> n in SlashedNames(list))
    && (forall s :: env.decode(env.encode(s)) == s && env.isUtf8(env.encode(s)))
  }

  datatype RepairResult = Failed | NotNeeded | Repaired(archive: Archive)

  // ---------- Names ----------

  function SlashedNames(list: seq<string>): set<string> {
    set i | 0 <= i < |list| :: Slashed(list[i])
  }

  function NameList(zip: Archive): seq<string> {
    if zip == [] then [] else [zip[0].name] + NameList(zip[1..])
  }

  // The normalised names of the parts.
  function Names(zip: Archive): set<string> {
    if zip == [] then {} else {Slashed(zip[0].name)} + Names(zip[1..])
  }

  predicate IsSharedStrings(name: string) {
    EndsWith(Lower(name), "sharedstrings.xml")
  }

  predicate IsSheet(name: string) {
    "xl/worksheets/" <= name && EndsWith(name, ".xml")
  }

  // ---------- Parts ----------

  // The last entry of that very name.
  function Read(zip: Archive, name: string): Option<Bytes> {
    if zip == [] then None
    else match Read(zip[1..], name) {
      case Some(data) => Some(data)
      case None => if zip[0].name == name then Some(zip[0].data) else None
    }
  }

  function Pop(files: Archive, name: string): Archive {
    if files == [] then []
    else (if files[0].name == name then [] else [files[0]]) + Pop(files[1..], name)
  }

  // Setting a key: in the place of what was there, or at the end.
  function Put(files: Archive, name: string, data: Bytes): Archive {
    if files == [] then [Entry(name, data)]
    else if files[0].name == name then [Entry(name, data)] + Pop(files[1..], name)
    else [files[0]] + Put(files[1..], name, data)
  }

  // The dictionary of parts built from the first k entries.
  function FilesUpTo(zip: Archive, k: nat): Archive
    requires k <= |zip|
  {
    if k == 0 then []
    else
      ReadsEntry(zip, k - 1);
      Put(FilesUpTo(zip, k - 1), Slashed(zip[k - 1].name), Read(zip, zip[k - 1].name).value)
  }

  function Files(zip: Archive): Archive {
    FilesUpTo(zip, |zip|)
  }

  lemma {:induction false} ReadsEntry(zip: Archive, k: nat)
    requires k < |zip|
    ensures Read(zip, zip[k].name).Some?
  {
    if k > 0 {
      ReadsEntry(zip[1..], k - 1);
    }
  }

  // ---------- Repair ----------

  function FindSharedStrings(names: seq<string>): Option<string> {
    if names == [] then None
    else if IsSharedStrings(names[0]) then Some(names[0])
    else FindSharedStrings(names[1..])
  }

  // What is searched for in the content types and in the relationships.
  const TYPES_WORD := "sharedstrings.xml"
  const RELS_WORD := "sharedstrings"

  // Whether a manifest part mentions shared strings. A part is looked up under its normalised name but read under
  // its own, which fails if they differ: None.
  function References(env: Env, zip: Archive): Option<bool> {
    var types, rels := Read(zip, CONTENT_TYPES), Read(zip, WORKBOOK_RELS);
    if CONTENT_TYPES in Names(zip) && types.None? then None
    else if CONTENT_TYPES in Names(zip) && Mentions(TYPES_WORD, env.decode(types.value)) then Some(true)
    else if WORKBOOK_RELS in Names(zip) && rels.None? then None
    else Some(WORKBOOK_RELS in Names(zip) && Mentions(RELS_WORD, env.decode(rels.value)))
  }

  function UsesShared(env: Env, zip: Archive, names: seq<string>): Option<bool> {
    if names == [] then Some(false)
    else if !IsSheet(names[0]) then UsesShared(env, zip, names[1..])
    else match Read(zip, names[0]) {
      case None => None
      case Some(data) =>
        if env.sharedCell(env.decode(data)) then Some(true) else UsesShared(env, zip, names[1..])
    }
  }

  function Rename(files: Archive, source: string): Archive
    requires Read(files, source).Some?
  {
    Put(Pop(files, source), SST_PART, Read(files, source).value)
  }

  // One manifest part rewritten; None if it is not UTF-8.
  function Rewrite(env: Env, files: Archive, name: string, p: Pattern): Option<Archive> {
    match Read(files, name)
    case None => Some(files)
    case Some(data) =>
      if env.isUtf8(data) then Some(Put(files, name, env.encode(Drop(p, env.decode(data))))) else None
  }

  function StripManifest(env: Env, files: Archive): Option<Archive> {
    match Rewrite(env, files, CONTENT_TYPES, OVERRIDE)
    case None => None
    case Some(updated) => Rewrite(env, updated, WORKBOOK_RELS, RELATIONSHIP)
  }

  function Repair(env: Env, zip: Archive): RepairResult {
    var names := env.order(NameList(zip));
    match FindSharedStrings(names)
    case Some(path) =>
      if path == SST_PART then NotNeeded
      else if Read(Files(zip), path).None? then Failed
      else Repaired(Rename(Files(zip), path))
    case None =>
      match References(env, zip) {
        case None => Failed
        case Some(false) => NotNeeded
        case Some(true) =>
          match UsesShared(env, zip, names) {
            case None => Failed
            case Some(true) => NotNeeded
            case Some(false) =>
              match StripManifest(env, Files(zip)) {
                case None => Failed
                case Some(files) => Repaired(files)
              }
          }
      }
  }

  // ---------- Dictionary laws ----------

  lemma {:induction false} PopReads(files: Archive, name: string, n: string)
    ensures Read(Pop(files, name), n) == if n == name then None else Read(files, n)
    ensures Names(Pop(files, name)) <= Names(files)
  {
    if files != [] {
      PopReads(files[1..], name, n);
      var rest := Pop(files[1..], name);
      if files[0].name != name {
        assert ([files[0]] + rest)[1..] == rest;
      } else {
        assert [] + rest == rest;
      }
    }
  }

  lemma {:induction false} PutReads(files: Archive, name: string, data: Bytes, n: string)
    ensures Read(Put(files, name, data), n) == if n == name then Some(data) else Read(files, n)
  {
    if files == [] {
      assert Put(files, name, data)[1..] == [];
    } else if files[0].name == name {
      PopReads(files[1..], name, n);
      assert Put(files, name, data)[1..] == Pop(files[1..], name);
    } else {
      PutReads(files[1..], name, data, n);
      assert Put(files, name, data)[1..] == Put(files[1..], name, data);
    }
  }

  // The last entry whose normalised name is that.
  function Part(zip: Archive, name: string): Option<Bytes> {
    if zip == [] then None
    else if Slashed(zip[|zip| - 1].name) == name then Some(zip[|zip| - 1].data)
    else Part(zip[..|zip| - 1], name)
  }

  lemma {:induction false} ReadLast(zip: Archive, k: nat)
    requires k < |zip| && forall j :: k < j < |zip| ==> zip[j].name != zip[k].name
    ensures Read(zip, zip[k].name) == Some(zip[k].data)
  {
    if k > 0 {
      ReadLast(zip[1..], k - 1);
    } else {
      ReadNone(zip[1..], zip[0].name);
    }
  }

  lemma {:induction false} ReadNone(zip: Archive, name: string)
    ensures Read(zip, name).None? <==> forall j :: 0 <= j < |zip| ==> zip[j].name != name
  {
    if zip != [] {
      ReadNone(zip[1..], name);
      if Read(zip[1..], name).Some? {
        var j :| 0 <= j < |zip[1..]| && zip[1..][j].name == name;
        assert zip[j + 1].name == name;
      }
      assert forall j :: 0 < j < |zip| ==> zip[j] == zip[1..][j - 1];
    }
  }

  // Rewriting an archive keeps, under every normalised name, the last entry of that name.
  lemma {:induction false} FilesParts(zip: Archive, k: nat, name: string)
    requires k <= |zip| && forall j :: k <= j < |zip| ==> Slashed(zip[j].name) != name
    ensures Read(FilesUpTo(zip, k), name) == Part(zip[..k], name)
  {
    if k > 0 {
      var last := zip[k - 1];
      ReadsEntry(zip, k - 1);
      PutReads(FilesUpTo(zip, k - 1), Slashed(last.name), Read(zip, last.name).value, name);
      assert zip[..k][..k - 1] == zip[..k - 1];
      if Slashed(last.name) == name {
        ReadLast(zip, k - 1);
      } else {
        FilesParts(zip, k - 1, name);
      }
    }
  }

  lemma FilesPart(zip: Archive, name: string)
    ensures Read(Files(zip), name) == Part(zip, name)
  {
    FilesParts(zip, |zip|, name);
    assert zip[..|zip|] == zip;
  }

  lemma {:induction false} PartNames(zip: Archive, name: string)
    ensures Part(zip, name).Some? <==> name in Names(zip)
    decreases |zip|
  {
    if zip != [] {
      var front, last := zip[..|zip| - 1], zip[|zip| - 1];
      assert zip == front + [last];
      NamesAppend(front, [last]);
      PartNames(front, name);
      assert Names([last]) == {Slashed(last.name)} + Names([]);
    }
  }

  lemma {:induction false} NamesAppend(a: Archive, b: Archive)
    ensures Names(a + b) == Names(a) + Names(b)
  {
    if a == [] {
      assert a + b == b;
    } else {
      assert (a + b)[1..] == a[1..] + b;
      NamesAppend(a[1..], b);
    }
  }

  // ---------- The loops of the repair ----------

  method FindSharedStringsPath(names: seq<string>) returns (path: Option<string>)
    ensures path == FindSharedStrings(names)
  {
    assert names[0..] == names;
    for i := 0 to |names|
      invariant FindSharedStrings(names[i..]) == FindSharedStrings(names)
    {
      assert names[i..][1..] == names[i + 1..];
      if IsSharedStrings(names[i]) {
        return Some(names[i]);
      }
    }
    return None;
  }

  method WorksheetsUseSharedStringCells(env: Env, zip: Archive, names: seq<string>) returns (used: Option<bool>)
    ensures used == UsesShared(env, zip, names)
  {
    assert names[0..] == names;
    for i := 0 to |names|
      invariant UsesShared(env, zip, names[i..]) == UsesShared(env, zip, names)
    {
      assert names[i..][1..] == names[i + 1..];
      if !IsSheet(names[i]) {
        continue;
      }
      var sheet := Read(zip, names[i]);
      if sheet.None? {
        return None;
      }
      if env.sharedCell(env.decode(sheet.value)) {
        return Some(true);
      }
    }
    return Some(false);
  }

  // The loop of _rewrite_zip that collects the parts.
  method CollectFiles(zip: Archive) returns (files: Archive)
    ensures files == Files(zip)
    ensures forall n :: Read(files, n) == Part(zip, n)
  {
    files := [];
    for i := 0 to |zip|
      invariant files == FilesUpTo(zip, i)
    {
      var name := zip[i].name;
      ReadsEntry(zip, i);
      files := Put(files, Slashed(name), Read(zip, name).value);
    }
    forall n ensures Read(files, n) == Part(zip, n) {
      FilesPart(zip, n);
    }
  }
}
