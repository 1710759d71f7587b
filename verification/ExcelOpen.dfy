// The loop that opens an Excel workbook (docreader/parser/excel_parser.py, excel_convert.py).
module ExcelOpen {
  import opened Wrappers
  import Text
  import opened XlsxRepair
  import opened XlsxSettles

  datatype Format = Xlsx | Xls | Xlsb | Ods

  // A file: a ZIP archive, with what the file begins with if that is not the first entry, or anything else.
  datatype Data = Zip(archive: Archive, start: Bytes) | Other(bytes: Bytes)

  const ZIP_MAGIC: Bytes := [0x50, 0x4B, 0x03, 0x04]

  // Format detection; it raises on a damaged archive.
  datatype Detection = Unrecognized | Known(format: Format) | Unreadable

  // fill_merged_cells_xlsx on an archive: nothing to fill, a workbook saved anew, or an exception.
  datatype FillResult = Kept | Saved(archive: Archive) | Broken

  // pd.ExcelFile: success, or the exceptions the loop tells apart.
  datatype OpenResult =
    | Ok
    | NoEngine
    | MissingPart(sharedStrings: bool)
    | BadValue(undetermined: bool)
    | OtherError

  // What the loop calls. The number of the iteration is an argument because a later call may behave differently.
  datatype World = World(
    env: Env,
    inspect: Bytes -> Detection,
    isXls: Bytes -> bool,
    // The format of an archive, from the names of its parts other than shared strings.
    archiveFormat: set<string> -> Format,
    // LibreOffice: number of the iteration, file, suffix of the temporary file.
    convert: (nat, Data, string) -> Option<Data>,
    // Whether openpyxl's loader finds the shared strings a package declares; if not, it raises KeyError.
    finds: Archive -> bool,
    fill: (nat, Archive) -> FillResult,
    open: (nat, Data, string) -> OpenResult)

  datatype Outcome = Opened(data: Data, engine: string) | Raised

  datatype Loop = Running(data: Data, converted: bool, iteration: nat) | Done(outcome: Outcome)

  predicate BeginsAsZip(start: Bytes) {
    start == [] || ZIP_MAGIC <= start
  }

  function Detect(w: World, data: Data): Detection {
    match data
    case Zip(archive, start) =>
      if BeginsAsZip(start) then Known(w.archiveFormat(OtherNames(archive)))
      else if w.isXls(start) then Known(Xls)
      else Unrecognized
    case Other(bytes) => if bytes == [] then Unrecognized else w.inspect(bytes)
  }

  function EngineFor(format: Format): string {
    match format
    case Xls => "xlrd"
    case Xlsx => "openpyxl"
    case Xlsb => "openpyxl"
    case Ods => "odf"
  }

  // A conversion that produced something.
  function Converted(w: World, k: nat, data: Data, suffix: string): Option<Data> {
    var result := w.convert(k, data, suffix);
    if result == Some(Other([])) then None else result
  }

  function Suffixes(fileType: Option<string>): seq<string> {
    (if fileType.Some? && fileType.value != "" then ["." + Text.StripLeft(fileType.value, {'.'})] else []) +
    [".xlsx", ".xls", ".et", ".csv"]
  }

  // The first conversion to a recognised format; None for an exception.
  function FirstConversion(w: World, k: nat, data: Data, suffixes: seq<string>, seen: set<string>): Option<Data>
    decreases suffixes
  {
    if suffixes == [] then None
    else if suffixes[0] in seen then FirstConversion(w, k, data, suffixes[1..], seen)
    else
      var result := Converted(w, k, data, suffixes[0]);
      if result.Some? && Detect(w, result.value).Known? then result
      else if result.Some? && Detect(w, result.value).Unreadable? then None
      else FirstConversion(w, k, data, suffixes[1..], seen + {suffixes[0]})
  }

  function Normalize(w: World, k: nat, data: Data, fileType: Option<string>): Option<Data> {
    match Detect(w, data)
    case Known(_) => Some(data)
    case Unreadable => None
    case Unrecognized => FirstConversion(w, k, data, Suffixes(fileType), {})
  }

  function Fill(w: World, k: nat, zip: Archive, start: Bytes): Option<Data> {
    match w.fill(k, zip)
    case Kept => Some(Zip(zip, start))
    case Saved(archive) => Some(Zip(archive, []))
    case Broken => None
  }

  function RepairData(w: World, data: Data): RepairResult {
    if data.Zip? then Repair(w.env, data.archive) else NotNeeded
  }

  function Prepare(w: World, k: nat, data: Data): Option<Data> {
    if data.Other? then Some(data)
    else match Repair(w.env, data.archive) {
      case Failed => None
      case NotNeeded => Fill(w, k, data.archive, data.start)
      case Repaired(archive) => Fill(w, k, archive, [])
    }
  }

  // The try statement, on prepared data.
  function TryOpen(w: World, content: Data, fileType: Option<string>, k: nat, data: Data, engine: string,
                   converted: bool): Loop
  {
    match w.open(k, data, engine)
    case Ok => Done(Opened(data, engine))
    case NoEngine => Done(Raised)
    case OtherError => Done(Raised)
    case MissingPart(sharedStrings) =>
      if !sharedStrings || engine != "openpyxl" || !RepairData(w, data).Repaired? then Done(Raised)
      else
        (match Prepare(w, k, Zip(RepairData(w, data).archive, [])) {
          case None => Done(Raised)
          case Some(again) => Running(again, converted, k + 1)
        })
    case BadValue(undetermined) =>
      if converted || !undetermined then Done(Raised)
      else match Normalize(w, k, content, fileType) {
        case None => Done(Raised)
        case Some(again) => Running(again, true, k + 1)
      }
  }

  // One iteration.
  function Step(w: World, content: Data, fileType: Option<string>, s: Loop): Loop {
    match s
    case Done(_) => s
    case Running(data, converted, k) =>
      match Detect(w, data) {
        case Unreadable => Done(Raised)
        case Unrecognized =>
          if converted then Done(Raised)
          else (match Normalize(w, k, data, fileType) {
            case None => Done(Raised)
            case Some(normalized) => Running(normalized, true, k + 1)
          })
        case Known(format) =>
          if format == Ods && Converted(w, k, data, ".ods").Some? then
            Running(Converted(w, k, data, ".ods").value, converted, k + 1)
          else if format == Xlsx then
            (match Prepare(w, k, data) {
              case None => Done(Raised)
              case Some(prepared) => TryOpen(w, content, fileType, k, prepared, "openpyxl", converted)
            })
          else TryOpen(w, content, fileType, k, data, EngineFor(format), converted)
      }
  }

  // n iterations.
  function Iterate(w: World, content: Data, fileType: Option<string>, s: Loop, n: nat): Loop {
    if n == 0 then s else Step(w, content, fileType, Iterate(w, content, fileType, s, n - 1))
  }

  lemma {:induction false} IterateFirst(w: World, content: Data, fileType: Option<string>, s: Loop, t: Loop, n: nat)
    requires Step(w, content, fileType, s) == t
    ensures Iterate(w, content, fileType, s, n + 1) == Iterate(w, content, fileType, t, n)
  {
    if n > 0 {
      IterateFirst(w, content, fileType, s, t, n - 1);
    }
  }

  lemma IterateNext(w: World, content: Data, fileType: Option<string>, s: Loop, n: nat, t: Loop)
    requires n > 0 && Iterate(w, content, fileType, s, n - 1) == t
    ensures Iterate(w, content, fileType, s, n) == Step(w, content, fileType, t)
  {
  }

  // ---------- One loader ----------

  // The filling and the reader load a package with the same loader: where it misses declared shared strings the
  // filling raises, and only there the reader does.
  ghost predicate SameLoader(w: World) {
    && (forall k, zip :: !w.finds(zip) ==> w.fill(k, zip) == Broken)
    && (forall k, zip, start :: w.open(k, Zip(zip, start), "openpyxl") == MissingPart(true) ==> !w.finds(zip))
  }

  // Besides, converting an ODS file does not yield one, and a workbook saved anew has the shared strings it
  // declares and is no ODS file.
  ghost predicate Lawful(w: World) {
    && Valid(w.env) && SameLoader(w)
    && (forall k, data :: w.convert(k, data, ".ods").Some? ==> !IsOds(w, w.convert(k, data, ".ods").value))
    && (forall k, zip :: w.fill(k, zip).Saved? ==>
          w.finds(w.fill(k, zip).archive) && !IsOds(w, Zip(w.fill(k, zip).archive, [])))
  }

  predicate IsOds(w: World, data: Data) {
    Detect(w, data) == Known(Ods)
  }

  // Not a package whose declared shared strings are missing.
  predicate Found(w: World, data: Data) {
    data.Zip? ==> w.finds(data.archive)
  }

  lemma FillFinds(w: World, k: nat, zip: Archive, start: Bytes)
    requires Lawful(w) && Fill(w, k, zip, start).Some?
    ensures Found(w, Fill(w, k, zip, start).value)
  {
    assert !w.finds(zip) ==> w.fill(k, zip) == Broken;
  }

  // Whatever has been prepared, the loader has been through.
  lemma PreparedFound(w: World, k: nat, data: Data)
    requires Lawful(w) && Prepare(w, k, data).Some?
    ensures Found(w, Prepare(w, k, data).value)
  {
    if data.Zip? {
      match Repair(w.env, data.archive) {
        case Failed =>
        case NotNeeded => FillFinds(w, k, data.archive, data.start);
        case Repaired(archive) => FillFinds(w, k, archive, []);
      }
    }
  }

  // So the repair that the loop keeps for a missing part is never used on an XLSX file: after it is prepared the
  // reader does not miss the part, or the file is no archive and cannot be repaired.
  lemma NoSecondRepair(w: World, k: nat, data: Data, j: nat)
    requires Lawful(w) && Prepare(w, k, data).Some?
    ensures var prepared := Prepare(w, k, data).value;
      w.open(j, prepared, "openpyxl") == MissingPart(true) ==> !RepairData(w, prepared).Repaired?
  {
    PreparedFound(w, k, data);
  }

  // ---------- The loop ends ----------

  lemma SameFormat(w: World, zip: Archive, start: Bytes)
    requires Valid(w.env) && BeginsAsZip(start) && Repair(w.env, zip).Repaired?
    ensures Detect(w, Zip(Repair(w.env, zip).archive, [])) == Detect(w, Zip(zip, start))
  {
    RepairKeepsNames(w.env, zip);
  }

  lemma FillOds(w: World, k: nat, zip: Archive, start: Bytes)
    requires Lawful(w) && Fill(w, k, zip, start).Some? && !IsOds(w, Zip(zip, start))
    ensures !IsOds(w, Fill(w, k, zip, start).value)
  {
  }

  // Preparing makes no ODS file.
  lemma PreparedOds(w: World, k: nat, data: Data)
    requires Lawful(w) && Prepare(w, k, data).Some? && !IsOds(w, data)
    requires data.Zip? ==> BeginsAsZip(data.start)
    ensures !IsOds(w, Prepare(w, k, data).value)
  {
    if data.Zip? {
      match Repair(w.env, data.archive) {
        case Failed =>
        case NotNeeded => FillOds(w, k, data.archive, data.start);
        case Repaired(archive) =>
          SameFormat(w, data.archive, data.start);
          FillOds(w, k, archive, []);
      }
    }
  }

  // What may still be in the way of opening a file: the conversion of an ODS file, then missing shared strings.
  function Pending(w: World, data: Data): (n: nat)
    ensures n <= 2
  {
    if IsOds(w, data) then 2 else if Found(w, data) then 0 else 1
  }

  // The iterations left, at most: both of these before and after the one conversion of an unknown file.
  function Bound(w: World, s: Loop): (n: nat)
    ensures n <= 6
  {
    match s
    case Done(_) => 0
    case Running(data, converted, _) => (if converted then 1 else 4) + Pending(w, data)
  }

  // A repair is only reached by a package in XLSB format, which is not prepared before it is opened.
  predicate Openable(w: World, data: Data, engine: string) {
    engine == "openpyxl" ==> Found(w, data) || Detect(w, data) == Known(Xlsb)
  }

  lemma MissingXlsb(w: World, k: nat, data: Data)
    requires Lawful(w) && Openable(w, data, "openpyxl") && RepairData(w, data).Repaired?
    requires w.open(k, data, "openpyxl") == MissingPart(true)
    ensures Detect(w, data) == Known(Xlsb) && Pending(w, data) == 1
    ensures var again := Prepare(w, k, Zip(RepairData(w, data).archive, []));
      again.Some? ==> Pending(w, again.value) == 0
  {
    var out := Zip(RepairData(w, data).archive, []);
    assert w.open(k, Zip(data.archive, data.start), "openpyxl") == MissingPart(true);
    SameFormat(w, data.archive, data.start);
    if Prepare(w, k, out).Some? {
      PreparedOds(w, k, out);
      PreparedFound(w, k, out);
    }
  }

  lemma TryOpenProgress(w: World, content: Data, fileType: Option<string>, k: nat, data: Data, engine: string,
      converted: bool)
    requires Lawful(w) && Openable(w, data, engine)
    ensures var t := TryOpen(w, content, fileType, k, data, engine, converted);
      t.Running? ==> t.iteration == k + 1 && Bound(w, t) < Bound(w, Running(data, converted, k))
  {
    if w.open(k, data, engine) == MissingPart(true) && engine == "openpyxl" && RepairData(w, data).Repaired? {
      MissingXlsb(w, k, data);
    }
  }

  lemma XlsxProgress(w: World, content: Data, fileType: Option<string>, data: Data, converted: bool, k: nat)
    requires Lawful(w) && Detect(w, data) == Known(Xlsx) && Prepare(w, k, data).Some?
    ensures Found(w, Prepare(w, k, data).value)
    ensures Pending(w, Prepare(w, k, data).value) <= Pending(w, data)
  {
    PreparedFound(w, k, data);
    PreparedOds(w, k, data);
  }

  // Every iteration that goes on leaves strictly fewer iterations.
  lemma StepProgress(w: World, content: Data, fileType: Option<string>, s: Loop)
    requires Lawful(w) && s.Running?
    ensures var t := Step(w, content, fileType, s);
      t.Running? ==> t.iteration == s.iteration + 1 && Bound(w, t) < Bound(w, s)
  {
    var k, data := s.iteration, s.data;
    if Detect(w, data) == Known(Xlsx) {
      if Prepare(w, k, data).Some? {
        XlsxProgress(w, content, fileType, data, s.converted, k);
        TryOpenProgress(w, content, fileType, k, Prepare(w, k, data).value, "openpyxl", s.converted);
      }
    } else if Detect(w, data).Known? {
      TryOpenProgress(w, content, fileType, k, data, EngineFor(Detect(w, data).format), s.converted);
    }
  }

  lemma {:induction false} DoneStays(w: World, content: Data, fileType: Option<string>, s: Loop, n: nat, m: nat)
    requires n <= m && Iterate(w, content, fileType, s, n).Done?
    ensures Iterate(w, content, fileType, s, m).Done?
  {
    if n < m {
      DoneStays(w, content, fileType, s, n, m - 1);
    }
  }

  // From every state, and so on every workbook, the loop ends within that many iterations, six at most.
  lemma {:induction false} LoopEnds(w: World, content: Data, fileType: Option<string>, s: Loop)
    requires Lawful(w)
    ensures Iterate(w, content, fileType, s, Bound(w, s)).Done?
    decreases Bound(w, s)
  {
    hide Step, Lawful, Pending;
    if s.Running? {
      var t := Step(w, content, fileType, s);
      StepProgress(w, content, fileType, s);
      LoopEnds(w, content, fileType, t);
      if t.Running? {
        IterateFirst(w, content, fileType, s, t, Bound(w, s) - 1);
        DoneStays(w, content, fileType, t, Bound(w, t), Bound(w, s) - 1);
      } else {
        IterateFirst(w, content, fileType, s, t, 0);
        DoneStays(w, content, fileType, s, 1, Bound(w, s));
      }
    }
  }

  // ---------- Missing shared strings ----------

  // The package after the repair that comes first in preparing it.
  function FirstRepair(w: World, zip: Archive): Archive {
    match Repair(w.env, zip) { case Repaired(out) => out case _ => zip }
  }

  // If the loader misses the shared strings of the repaired package, the loop raises in its first iteration.
  lemma MissingRaises(w: World, content: Data, fileType: Option<string>, zip: Archive, start: Bytes, converted: bool,
      k: nat)
    requires SameLoader(w) && Detect(w, Zip(zip, start)) == Known(Xlsx) && !w.finds(FirstRepair(w, zip))
    ensures Step(w, content, fileType, Running(Zip(zip, start), converted, k)) == Done(Raised)
  {
    assert w.fill(k, FirstRepair(w, zip)) == Broken;
  }

  // The single mention in a tag without double quotes: the repair gives the very same package, again and again, so
  // it does not help if the loader misses the part.
  lemma UnquotedRaises(w: World, fileType: Option<string>, before: string, mention: string, after: string)
    requires Valid(w.env) && SameLoader(w)
    requires Unquoted(before) && Unquoted(mention) && Unquoted(after) && Text.Lower(mention) == TYPES_WORD
    requires var zip := OneTag(w.env, before + mention + after);
      Detect(w, Zip(zip, [])) == Known(Xlsx) && !w.finds(zip)
    ensures var content := Zip(OneTag(w.env, before + mention + after), []);
      Iterate(w, content, fileType, Running(content, false, 0), 1) == Done(Raised)
  {
    var zip := OneTag(w.env, before + mention + after);
    UnquotedUnchanged(w.env, before, mention, after);
    MissingRaises(w, Zip(zip, []), fileType, zip, [], false, 0);
    IterateNext(w, Zip(zip, []), fileType, Running(Zip(zip, []), false, 0), 1, Running(Zip(zip, []), false, 0));
  }

  // What is not mentioned is not missed.
  ghost predicate Undeclared(w: World) {
    forall zip :: References(w.env, zip) == Some(false) ==> w.finds(zip)
  }

  // A package without shared strings that mentions them in double-quoted self-closing elements only: once repaired,
  // the loader goes through.
  lemma RepairedIsFound(w: World, zip: Archive)
    requires Valid(w.env) && Undeclared(w)
    requires SharedNames(zip) == {} && Mentioned(w.env, zip) && OnlySelfClosing(w.env, zip)
    requires Repair(w.env, zip).Repaired?
    ensures w.finds(Repair(w.env, zip).archive)
  {
    RepairStrips(w.env, zip);
    StripMentions(w.env, zip);
    SurvivesIff(w.env, zip);
  }

  // ---------- What reaches the reader ----------

  // Nothing is filled in the package, nor in what repairs make of it.
  ghost predicate NothingToFill(w: World, zip: Archive) {
    forall k, out {:trigger w.fill(k, out)} :: SameParts(out, zip) ==> w.fill(k, out).Kept?
  }

  ghost predicate From(data: Data, zip: Archive) {
    data.Zip? && BeginsAsZip(data.start) && SameParts(data.archive, zip) && OtherNames(data.archive) == OtherNames(zip)
  }

  lemma PrepareKeeps(w: World, k: nat, data: Data, zip: Archive)
    requires Valid(w.env) && NothingToFill(w, zip) && From(data, zip) && Prepare(w, k, data).Some?
    ensures From(Prepare(w, k, data).value, zip)
  {
    RepairPromise(w.env, data.archive);
  }

  ghost predicate StateFrom(s: Loop, zip: Archive) {
    match s
    case Running(data, _, _) => From(data, zip)
    case Done(Raised) => true
    case Done(Opened(data, _)) => From(data, zip)
  }

  lemma TryOpenKeeps(w: World, content: Data, zip: Archive, fileType: Option<string>, k: nat, data: Data,
      engine: string, converted: bool)
    requires Valid(w.env) && NothingToFill(w, zip) && From(data, zip) && From(content, zip)
    ensures StateFrom(TryOpen(w, content, fileType, k, data, engine, converted), zip)
  {
    if w.open(k, data, engine).MissingPart? && Repair(w.env, data.archive).Repaired? {
      RepairPromise(w.env, data.archive);
      var out := Zip(Repair(w.env, data.archive).archive, []);
      if Prepare(w, k, out).Some? {
        PrepareKeeps(w, k, out, zip);
      }
    }
  }

  lemma StepKeeps(w: World, content: Data, zip: Archive, fileType: Option<string>, s: Loop)
    requires Valid(w.env) && NothingToFill(w, zip) && From(content, zip) && !IsOds(w, content) && StateFrom(s, zip)
    ensures StateFrom(Step(w, content, fileType, s), zip)
  {
    if s.Running? {
      var k, data := s.iteration, s.data;
      var format := Detect(w, data).format;
      assert Detect(w, data) == Detect(w, content);
      if format == Xlsx {
        if Prepare(w, k, data).Some? {
          PrepareKeeps(w, k, data, zip);
          TryOpenKeeps(w, content, zip, fileType, k, Prepare(w, k, data).value, "openpyxl", s.converted);
        }
      } else {
        TryOpenKeeps(w, content, zip, fileType, k, data, EngineFor(format), s.converted);
      }
    }
  }

  // However many repairs it takes, the worksheets and all other parts of a package without merged cells reach the
  // reader byte for byte.
  lemma {:induction false} ReaderGetsParts(w: World, content: Data, zip: Archive, fileType: Option<string>, s: Loop,
      n: nat)
    requires Valid(w.env) && NothingToFill(w, zip) && From(content, zip) && !IsOds(w, content) && StateFrom(s, zip)
    ensures StateFrom(Iterate(w, content, fileType, s, n), zip)
    decreases n
  {
    if n > 0 {
      ReaderGetsParts(w, content, zip, fileType, s, n - 1);
      StepKeeps(w, content, zip, fileType, Iterate(w, content, fileType, s, n - 1));
    }
  }

  // ---------- The loop as written ----------

  method NormalizeExcelBytes(w: World, k: nat, data: Data, fileType: Option<string>) returns (r: Option<Data>)
    ensures r == Normalize(w, k, data, fileType)
  {
    match Detect(w, data) {
      case Known(_) => return Some(data);
      case Unreadable => return None;
      case Unrecognized =>
    }
    var suffixes := Suffixes(fileType);
    var seen: set<string> := {};
    assert suffixes[0..] == suffixes;
    for i := 0 to |suffixes|
      invariant FirstConversion(w, k, data, suffixes[i..], seen) == FirstConversion(w, k, data, suffixes, {})
    {
      assert suffixes[i..][1..] == suffixes[i + 1..];
      if suffixes[i] in seen {
        continue;
      }
      var converted := Converted(w, k, data, suffixes[i]);
      if converted.Some? {
        var found := Detect(w, converted.value);
        if found.Known? {
          return converted;
        }
        if found.Unreadable? {
          return None;
        }
      }
      seen := seen + {suffixes[i]};
    }
    return None;
  }

  method PrepareXlsxBytes(w: World, k: nat, data: Data) returns (r: Option<Data>)
    ensures r == Prepare(w, k, data)
  {
    if data.Other? {
      return Some(data);
    }
    var repaired := RepairXlsxBytes(w.env, data.archive);
    match repaired {
      case Failed => return None;
      case NotNeeded => return Fill(w, k, data.archive, data.start);
      case Repaired(archive) => return Fill(w, k, archive, []);
    }
  }

  // What is opened, the reader accepted in this iteration.
  predicate Accepted(w: World, k: nat, t: Loop) {
    t.Done? && t.outcome.Opened? ==> w.open(k, t.outcome.data, t.outcome.engine) == Ok
  }

  // If the loop goes on, it is with fewer iterations left.
  predicate Advances(w: World, s: Loop, t: Loop)
    requires s.Running?
  {
    t.Running? ==> t.iteration == s.iteration + 1 && Bound(w, t) < Bound(w, s)
  }

  lemma TryOpenAccepted(w: World, content: Data, fileType: Option<string>, k: nat, data: Data, engine: string,
      converted: bool)
    ensures Accepted(w, k, TryOpen(w, content, fileType, k, data, engine, converted))
  {
  }

  // The reader each format is opened with.
  predicate IsEngine(found: Detection, engine: string) {
    match found
    case Known(Xls) => engine == "xlrd"
    case Known(Xlsx) => engine == "openpyxl"
    case Known(Xlsb) => engine == "openpyxl"
    case Known(Ods) => engine == "odf"
    case _ => false
  }

  // What one iteration opens is the file it is given, which only an XLSX file is prepared for, by its format's reader.
  predicate OpensFile(w: World, k: nat, data: Data, outcome: Outcome) {
    outcome.Opened? ==>
      IsEngine(Detect(w, data), outcome.engine) &&
      if Detect(w, data) == Known(Xlsx) then Prepare(w, k, data) == Some(outcome.data) else outcome.data == data
  }

  lemma StepOpensFile(w: World, content: Data, fileType: Option<string>, s: Loop)
    requires s.Running?
    ensures var t := Step(w, content, fileType, s); t.Done? ==> OpensFile(w, s.iteration, s.data, t.outcome)
  {
    hide Prepare, Normalize, Detect;
  }

  lemma StepAccepted(w: World, content: Data, fileType: Option<string>, s: Loop)
    requires s.Running?
    ensures Accepted(w, s.iteration, Step(w, content, fileType, s))
  {
  }

  method TryReader(w: World, content: Data, fileType: Option<string>, k: nat, data: Data, engine: string,
      converted: bool)
    returns (t: Loop)
    ensures t == TryOpen(w, content, fileType, k, data, engine, converted)
    ensures Accepted(w, k, t)
    ensures Lawful(w) && Openable(w, data, engine) ==> Advances(w, Running(data, converted, k), t)
  {
    TryOpenAccepted(w, content, fileType, k, data, engine, converted);
    if Lawful(w) && Openable(w, data, engine) {
      TryOpenProgress(w, content, fileType, k, data, engine, converted);
    }
    match w.open(k, data, engine) {
      case Ok => return Done(Opened(data, engine));
      case NoEngine => return Done(Raised);
      case OtherError => return Done(Raised);
      case MissingPart(sharedStrings) =>
        if !sharedStrings || engine != "openpyxl" || data.Other? {
          return Done(Raised);
        }
        var repaired := RepairXlsxBytes(w.env, data.archive);
        if !repaired.Repaired? {
          return Done(Raised);
        }
        var again := PrepareXlsxBytes(w, k, Zip(repaired.archive, []));
        return if again.None? then Done(Raised) else Running(again.value, converted, k + 1);
      case BadValue(undetermined) =>
        if converted || !undetermined {
          return Done(Raised);
        }
        var normalized := NormalizeExcelBytes(w, k, content, fileType);
        return if normalized.None? then Done(Raised) else Running(normalized.value, true, k + 1);
    }
  }

  // The body of the loop.
  method Attempt(w: World, content: Data, fileType: Option<string>, k: nat, data: Data, converted: bool)
    returns (t: Loop)
    ensures t == Step(w, content, fileType, Running(data, converted, k))
    ensures Accepted(w, k, t)
    ensures t.Done? ==> OpensFile(w, k, data, t.outcome)
    ensures Lawful(w) ==> Advances(w, Running(data, converted, k), t)
  {
    StepOpensFile(w, content, fileType, Running(data, converted, k));
    StepAccepted(w, content, fileType, Running(data, converted, k));
    if Lawful(w) {
      StepProgress(w, content, fileType, Running(data, converted, k));
    }
    var found := Detect(w, data);
    if found.Unreadable? {
      return Done(Raised);
    }
    if found.Unrecognized? {
      if converted {
        return Done(Raised);
      }
      var normalized := NormalizeExcelBytes(w, k, data, fileType);
      return if normalized.None? then Done(Raised) else Running(normalized.value, true, k + 1);
    }
    if found.format == Ods {
      var asXlsx := Converted(w, k, data, ".ods");
      if asXlsx.Some? {
        return Running(asXlsx.value, converted, k + 1);
      }
    }
    var prepared, engine := data, EngineFor(found.format);
    if found.format == Xlsx {
      var ready := PrepareXlsxBytes(w, k, data);
      if ready.None? {
        return Done(Raised);
      }
      prepared, engine := ready.value, "openpyxl";
    }
    t := TryReader(w, content, fileType, k, prepared, engine, converted);
  }

  // What the loop keeps: where it is after n iterations from the start.
  ghost predicate Reached(w: World, content: Data, fileType: Option<string>, n: nat, s: Loop) {
    && Iterate(w, content, fileType, Running(content, false, 0), n) == s
    && n + Bound(w, s) <= Bound(w, Running(content, false, 0))
    && if s.Running? then s.iteration == n else n > 0 && Accepted(w, n - 1, s)
  }

  lemma ReachesNext(w: World, content: Data, fileType: Option<string>, n: nat, s: Loop, t: Loop)
    requires Reached(w, content, fileType, n, s) && s.Running?
    requires t == Step(w, content, fileType, s) && Accepted(w, n, t) && Advances(w, s, t)
    ensures Reached(w, content, fileType, n + 1, t)
  {
    hide Step, Accepted, Pending;
    IterateNext(w, content, fileType, Running(content, false, 0), n + 1, s);
  }

  method Turn(w: World, content: Data, fileType: Option<string>, n: nat, s: Loop) returns (t: Loop)
    requires Lawful(w) && s.Running? && Reached(w, content, fileType, n, s)
    ensures Reached(w, content, fileType, n + 1, t) && Bound(w, t) < Bound(w, s)
  {
    hide Step, Iterate;
    t := Attempt(w, content, fileType, n, s.data, s.converted);
    ReachesNext(w, content, fileType, n, s, t);
  }

  // The loop ends on every workbook, within six iterations.
  method OpenExcelFile(w: World, content: Data, fileType: Option<string>) returns (outcome: Outcome, n: nat)
    requires Lawful(w)
    ensures Iterate(w, content, fileType, Running(content, false, 0), n) == Done(outcome)
    ensures 0 < n <= 6 && Accepted(w, n - 1, Done(outcome))
  {
    hide Step, Lawful, Pending, Accepted;
    var state := Running(content, false, 0);
    n := 0;
    while state.Running?
      invariant Reached(w, content, fileType, n, state)
      decreases Bound(w, state)
    {
      state := Turn(w, content, fileType, n, state);
      n := n + 1;
    }
    outcome := state.outcome;
  }
}
