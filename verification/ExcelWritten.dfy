// Which reader a spreadsheet is opened with, and which conversions are tried on a file that is not recognised
// (excel_parser.py).
module ExcelWritten {
  import opened Wrappers
  import opened Text
  import opened XlsxRepair
  import opened XlsxSettles
  import opened ExcelOpen

  // A file that begins with "PK" and the bytes 3 and 4 is taken for a spreadsheet archive, whose parts settle the
  // format; one that begins otherwise may still be an old workbook.
  lemma ZipDetected(w: World, archive: Archive, start: Bytes)
    requires start != []
    ensures Detect(w, Zip(archive, start)) ==
      if |start| >= 4 && start[..4] == [0x50, 0x4B, 3, 4] then Known(w.archiveFormat(OtherNames(archive)))
      else if w.isXls(start) then Known(Xls)
      else Unrecognized
  {
    if ZIP_MAGIC <= start {
      assert start[..4] == ZIP_MAGIC;
    }
  }

  // A file that needs no repair and has nothing to fill is opened as it is; a repaired or filled one as it was written.
  lemma PreparedIs(w: World, k: nat, archive: Archive, start: Bytes)
    ensures var zip := match Repair(w.env, archive) { case Repaired(out) => out case _ => archive };
      Prepare(w, k, Zip(archive, start)) ==
        if Repair(w.env, archive).Failed? || w.fill(k, zip).Broken? then None
        else if w.fill(k, zip).Saved? then Some(Zip(w.fill(k, zip).archive, []))
        else if Repair(w.env, archive).NotNeeded? then Some(Zip(archive, start))
        else Some(Zip(zip, []))
  {
    hide Repair;
  }

  // ---------- Conversions ----------

  // The suffix named by the caller, its leading dots read as one, and then the four others.
  lemma SuffixesAre(dots: string, ext: string)
    requires AllIn(dots, {'.'}) && (ext != "" ==> ext[0] != '.')
    ensures Suffixes(None) == [".xlsx", ".xls", ".et", ".csv"]
    ensures Suffixes(Some(dots + ext)) ==
      if dots + ext == "" then [".xlsx", ".xls", ".et", ".csv"] else ["." + ext, ".xlsx", ".xls", ".et", ".csv"]
  {
    StripLeftOf(dots, ext, {'.'});
  }

  // The conversion fails, is empty, or gives something that is not recognised either.
  predicate IsNoUse(w: World, k: nat, data: Data, suffix: string) {
    var result := w.convert(k, data, suffix);
    result.None? || result == Some(Other([])) || Detect(w, result.value).Unrecognized?
  }

  // The suffixes are tried in turn up to the first that is of use; if what it gives cannot be read, nothing is used.
  lemma {:induction false} FirstOfUse(w: World, k: nat, data: Data, suffixes: seq<string>, seen: set<string>)
    returns (i: nat)
    requires forall s :: s in seen ==> IsNoUse(w, k, data, s)
    ensures i <= |suffixes| && forall j :: 0 <= j < i ==> IsNoUse(w, k, data, suffixes[j])
    ensures i < |suffixes| ==> !IsNoUse(w, k, data, suffixes[i])
    ensures FirstConversion(w, k, data, suffixes, seen) ==
      if i == |suffixes| || Detect(w, w.convert(k, data, suffixes[i]).value).Unreadable? then None
      else w.convert(k, data, suffixes[i])
    decreases suffixes
  {
    hide Detect;
    if suffixes == [] {
      i := 0;
    } else if IsNoUse(w, k, data, suffixes[0]) {
      i := FirstOfUse(w, k, data, suffixes[1..],
        if suffixes[0] in seen then seen else seen + {suffixes[0]});
      i := i + 1;
    } else {
      i := 0;
    }
  }

  // A file that is not recognised is replaced by the first conversion of use.
  lemma UnrecognizedConverted(w: World, k: nat, data: Data, dots: string, ext: string) returns (i: nat)
    requires Detect(w, data).Unrecognized? && AllIn(dots, {'.'}) && ext != "" && ext[0] != '.'
    ensures var suffixes := ["." + ext, ".xlsx", ".xls", ".et", ".csv"];
      && i <= 5 && (forall j :: 0 <= j < i ==> IsNoUse(w, k, data, suffixes[j]))
      && (i < 5 ==> !IsNoUse(w, k, data, suffixes[i]))
      && Normalize(w, k, data, Some(dots + ext)) ==
           if i == 5 || Detect(w, w.convert(k, data, suffixes[i]).value).Unreadable? then None
           else w.convert(k, data, suffixes[i])
  {
    SuffixesAre(dots, ext);
    i := FirstOfUse(w, k, data, Suffixes(Some(dots + ext)), {});
  }
}
