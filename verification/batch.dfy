/** tools/batch_emit.py: the batch driver that reads the download manifest
    and emits one month file per usable workbook. The files on disk are a
    map from path to what can be read from them. */
module Batch {
  import opened Wrappers
  import opened Text
  import opened Cells
  import opened Errors
  import opened Header
  import opened MonthFiles
  import opened Rows
  import opened YearMonth
  import opened Download
  import opened Seqs

  newtype byte = x: int | 0 <= x < 256

  /** `b"PK\x03\x04"`, the signature of a ZIP local file header. */
  const ZipSignature: seq<byte> := [0x50, 0x4B, 0x03, 0x04]

  /** `sniff_zip_signature`: the first four bytes are the ZIP signature;
      `None` stands for a file that cannot be opened or read. */
  predicate SniffZip(contents: Option<seq<byte>>) {
    contents.Some? && |contents.value| >= 4 && contents.value[..4] == ZipSignature
  }

  /** Four bytes read as a little-endian unsigned 32-bit number. */
  function LE32(b: seq<byte>): int
    requires |b| == 4
  {
    b[0] as int + 0x100 * (b[1] as int + 0x100 * (b[2] as int + 0x100 * b[3] as int))
  }

  /** A worksheet as rows of cells of one width. */
  datatype Sheet = Sheet(raw: seq<seq<Cell>>, width: nat)
  type Workbook = s: Sheet | IsTable(s.raw, s.width) witness Sheet([], 0)

  /** What can be read from a file on disk: its bytes, and its first
      worksheet (`None` where the Excel reader raises). */
  datatype FileInfo = FileInfo(contents: Option<seq<byte>>, book: Option<Workbook>)

  type Disk = map<string, FileInfo>

  /** A manifest record: `path`, and `year` and `month`, `None` where the
      key is missing or null. */
  datatype Record = Record(path: string, year: Option<int>, month: Option<int>)

  /** One line of the manifest file and the record its JSON decodes to. */
  datatype ManifestLine = ManifestLine(text: string, record: Record)

  /** What happened to one record. */
  datatype Outcome =
    | MissingFile
    | NotZip
    | NoYearMonth
    | Emitted(year: int, month: int, file: string, doc: MonthJson)
    | EmitFailed(year: int, month: int, error: Option<ExtractError>)

  /** The counts the driver reports, and the outcome of each record. */
  datatype Report = Report(outcomes: seq<Outcome>, emitted: nat, skipped: nat)

  /** Python truthiness of a decoded year or month: present and non-zero. */
  predicate Truthy(v: Option<int>) {
    v.Some? && v.value != 0
  }

  /** `if not y or not m: ... if fy and fm: y, m = fy, fm`: a known pair is
      kept; otherwise a found pair with both parts non-zero replaces it. */
  function Adopt(y: Option<int>, m: Option<int>, found: Option<YearMonth>): (Option<int>, Option<int>) {
    if Truthy(y) && Truthy(m) then (y, m)
    else if found.Some? && found.value.year != 0 && found.value.month != 0 then
      (Some(found.value.year), Some(found.value.month))
    else (y, m)
  }

  function SheetOf(book: Option<Workbook>): Option<seq<seq<Cell>>> {
    if book.Some? then Some(book.value.raw) else None
  }

  /** The `emit_month` call: a failed read or extraction is an emit failure. */
  function EmitOutcome(path: string, book: Option<Workbook>, y: int, m: int): Outcome {
    match book
    case None => EmitFailed(y, m, None)
    case Some(wb) =>
      match MonthDocument(path, wb.raw, wb.width, y, m)
      case Err(e) => EmitFailed(y, m, Some(e))
      case Ok(out) => Emitted(y, m, out.0, out.1)
  }

  /** The body of the manifest loop for one record, in its order of checks:
      the file must exist, the file name may supply the year and month, the
      file must be a ZIP archive, the worksheet may supply the year and
      month, and only then is the month emitted. */
  function Classify(rec: Record, disk: Disk): Outcome {
    if rec.path !in disk then MissingFile
    else
      var file := disk[rec.path];
      var named := Adopt(rec.year, rec.month, ParseYearMonthFromFilename(PathName(rec.path)));
      if !SniffZip(file.contents) then NotZip
      else
        var dated := Adopt(named.0, named.1, InSheetYearMonth(SheetOf(file.book)));
        if !(Truthy(dated.0) && Truthy(dated.1)) then NoYearMonth
        else EmitOutcome(rec.path, file.book, dated.0.value, dated.1.value)
  }

  /** `if not line.strip(): continue` */
  predicate IsRecordLine(line: ManifestLine) {
    !AllSpace(line.text)
  }

  function Classifier(disk: Disk): ManifestLine -> Outcome {
    (line: ManifestLine) => Classify(line.record, disk)
  }

  /** The outcomes of the records of the non-blank lines, in order. */
  function Outcomes(lines: seq<ManifestLine>, disk: Disk): seq<Outcome> {
    FilterMap(lines, IsRecordLine, Classifier(disk))
  }

  predicate IsEmitted(o: Outcome) {
    o.Emitted?
  }

  /** The worksheets the emitter can pick columns in without ambiguity. */
  predicate Unambiguous(disk: Disk) {
    forall p :: p in disk && disk[p].book.Some? ==>
      var wb := disk[p].book.value;
      MonthTable(wb.raw, wb.width).Ok? ==> PicksUnique(MonthTable(wb.raw, wb.width).value.columns)
  }

  /** One record of the manifest loop, updating `y` and `m` in place. */
  method ProcessRecord(rec: Record, disk: Disk) returns (o: Outcome)
    requires Unambiguous(disk)
    ensures o == Classify(rec, disk)
  {
    var y, m := rec.year, rec.month;
    if rec.path !in disk {
      return MissingFile;
    }
    var file := disk[rec.path];
    if !(Truthy(y) && Truthy(m)) {
      var fromName := ParseYearMonthFromFilename(PathName(rec.path));
      if fromName.Some? && fromName.value.year != 0 && fromName.value.month != 0 {
        y, m := Some(fromName.value.year), Some(fromName.value.month);
      }
    }
    if !SniffZip(file.contents) {
      return NotZip;
    }
    if !(Truthy(y) && Truthy(m)) {
      var fromSheet := InSheetYearMonth(SheetOf(file.book));
      if fromSheet.Some? && fromSheet.value.year != 0 && fromSheet.value.month != 0 {
        y, m := Some(fromSheet.value.year), Some(fromSheet.value.month);
      }
    }
    if !(Truthy(y) && Truthy(m)) {
      return NoYearMonth;
    }
    if file.book.None? {
      return EmitFailed(y.value, m.value, None);
    }
    var wb := file.book.value;
    var r := EmitMonth(rec.path, wb.raw, wb.width, y.value, m.value);
    if r.Err? {
      return EmitFailed(y.value, m.value, Some(r.error));
    }
    return Emitted(y.value, m.value, r.value.0, r.value.1);
  }

  /** `main`: nothing without a manifest; otherwise every non-blank line is
      processed in order and counted as emitted or skipped. */
  method BatchMain(manifest: Option<seq<ManifestLine>>, disk: Disk) returns (report: Option<Report>)
    requires Unambiguous(disk)
    ensures report.None? <==> manifest.None?
    ensures report.Some? ==>
      report.value.outcomes == Outcomes(manifest.value, disk) &&
      report.value.emitted == Count(report.value.outcomes, IsEmitted) &&
      report.value.emitted + report.value.skipped == |report.value.outcomes|
  {
    if manifest.None? {
      return None;
    }
    var lines := manifest.value;
    var outcomes: seq<Outcome> := [];
    var emitted, skipped := 0, 0;
    var i := 0;
    while i < |lines|
      invariant 0 <= i <= |lines|
      invariant outcomes == Outcomes(lines[..i], disk)
      invariant emitted == Count(outcomes, IsEmitted)
      invariant emitted + skipped == |outcomes|
    {
      assert lines[..i + 1][..i] == lines[..i];
      var line := lines[i];
      if IsRecordLine(line) {
        var o := ProcessRecord(line.record, disk);
        assert (outcomes + [o])[..|outcomes|] == outcomes;
        outcomes := outcomes + [o];
        if o.Emitted? {
          emitted := emitted + 1;
        } else {
          skipped := skipped + 1;
        }
      }
      i := i + 1;
    }
    assert lines[..|lines|] == lines;
    return Some(Report(outcomes, emitted, skipped));
  }

  // ---------------------------------------------------------------------
  // Properties
  // ---------------------------------------------------------------------

  lemma SplitByte(x: int, y: int, x': int, y': int)
    requires 0 <= x < 0x100 && 0 <= x' < 0x100
    requires x + 0x100 * y == x' + 0x100 * y'
    ensures x == x' && y == y'
  {
  }

  /** Distinct four-byte sequences read as distinct numbers. */
  lemma LE32Injective(a: seq<byte>, b: seq<byte>)
    requires |a| == 4 && |b| == 4 && LE32(a) == LE32(b)
    ensures a == b
  {
    SplitByte(a[0] as int, a[1] as int + 0x100 * (a[2] as int + 0x100 * a[3] as int),
              b[0] as int, b[1] as int + 0x100 * (b[2] as int + 0x100 * b[3] as int));
    SplitByte(a[1] as int, a[2] as int + 0x100 * a[3] as int,
              b[1] as int, b[2] as int + 0x100 * b[3] as int);
    SplitByte(a[2] as int, a[3] as int, b[2] as int, b[3] as int);
  }

  /** The sniff accepts a file exactly when it starts with the local file
      header signature 0x04034b50 of the ZIP format (section 4.3.7 of
      PKWARE's APPNOTE.TXT), stored little-endian; a file of fewer than four
      bytes or one that cannot be read is refused. */
  lemma SniffZipIsLocalHeader(contents: Option<seq<byte>>)
    ensures SniffZip(contents) <==>
      contents.Some? && |contents.value| >= 4 && LE32(contents.value[..4]) == 0x04034b50
  {
    assert LE32(ZipSignature) == 0x04034b50;
    if contents.Some? && |contents.value| >= 4 && LE32(contents.value[..4]) == 0x04034b50 {
      LE32Injective(contents.value[..4], ZipSignature);
    }
  }

  /** A record whose file is missing is skipped before anything else is
      looked at; a file that is not a ZIP archive is skipped even when the
      manifest gives its year and month. */
  lemma ExistenceAndSignatureFirst(rec: Record, disk: Disk)
    ensures rec.path !in disk ==> Classify(rec, disk) == MissingFile
    ensures rec.path in disk && !SniffZip(disk[rec.path].contents) ==> Classify(rec, disk) == NotZip
  {
  }

  /** A year and month given by the manifest are used as they are: neither
      the file name nor the worksheet is consulted. */
  lemma ManifestDateWins(rec: Record, disk: Disk)
    requires Truthy(rec.year) && Truthy(rec.month)
    requires rec.path in disk && SniffZip(disk[rec.path].contents)
    ensures Classify(rec, disk) == EmitOutcome(rec.path, disk[rec.path].book, rec.year.value, rec.month.value)
  {
  }

  /** Without a usable date in the manifest, a date in the file name is used
      and the worksheet is not consulted. */
  lemma FileNameBeforeSheet(rec: Record, disk: Disk)
    requires !(Truthy(rec.year) && Truthy(rec.month))
    requires rec.path in disk && SniffZip(disk[rec.path].contents)
    requires var found := ParseYearMonthFromFilename(PathName(rec.path));
      found.Some? && found.value.year != 0
    ensures var found := ParseYearMonthFromFilename(PathName(rec.path)).value;
      Classify(rec, disk) == EmitOutcome(rec.path, disk[rec.path].book, found.year, found.month)
  {
  }

  /** Only when neither the manifest nor the file name dates the file is
      the worksheet read; when it does not date the file either, the record
      is skipped. */
  lemma SheetIsLastResort(rec: Record, disk: Disk)
    requires !(Truthy(rec.year) && Truthy(rec.month))
    requires rec.path in disk && SniffZip(disk[rec.path].contents)
    requires var found := ParseYearMonthFromFilename(PathName(rec.path));
      found.None? || found.value.year == 0
    ensures var found := InSheetYearMonth(SheetOf(disk[rec.path].book));
      if found.Some? && found.value.year != 0 then
        Classify(rec, disk) == EmitOutcome(rec.path, disk[rec.path].book, found.value.year, found.value.month)
      else
        Classify(rec, disk) == NoYearMonth
  {
    var found := ParseYearMonthFromFilename(PathName(rec.path));
    assert found.Some? ==> found.value.month != 0;
  }

  /** An emitted month has a non-zero year and month, its file is named
      after them under `docs/data`, and its payload carries them. */
  lemma EmittedShape(rec: Record, disk: Disk)
    requires Classify(rec, disk).Emitted?
    ensures var o := Classify(rec, disk);
      o.year != 0 && o.month != 0 &&
      o.file == DataDir + MonthFileName(o.year, o.month) &&
      o.doc.year == o.year && o.doc.month == o.month
  {
  }

  /** A month whose date was inferred, from the file name or the
      worksheet, has a year of four digits and a month from 1 to 12, so the
      index rebuild lists its file; only a date taken from the manifest can
      fall outside the listing's glob. */
  lemma InferredDateIsListed(rec: Record, disk: Disk)
    requires !(Truthy(rec.year) && Truthy(rec.month))
    requires Classify(rec, disk).Emitted?
    ensures var o := Classify(rec, disk);
      1 <= o.month <= 12 && 1 <= o.year <= 9999 &&
      MatchesMonthGlob(MonthFileName(o.year, o.month))
  {
    var o := Classify(rec, disk);
    MonthFileNameMatchesGlob(o.year, o.month);
  }

  /** Blank lines are not counted, and every other line is counted once,
      as emitted or as skipped. */
  lemma CountsAddUp(lines: seq<ManifestLine>, disk: Disk)
    ensures |Outcomes(lines, disk)| == Count(lines, IsRecordLine)
    ensures Count(Outcomes(lines, disk), IsEmitted) <= Count(lines, IsRecordLine)
  {
    FilterMapLength(lines, IsRecordLine, Classifier(disk));
  }

  /** The manifest lines are processed independently of each other: the
      outcomes of two parts of a manifest are those of each part. */
  lemma OutcomesAppend(a: seq<ManifestLine>, b: seq<ManifestLine>, disk: Disk)
    ensures Outcomes(a + b, disk) == Outcomes(a, disk) + Outcomes(b, disk)
  {
    FilterMapAppend(a, b, IsRecordLine, Classifier(disk));
  }

  /** A local name has no '/', so it is the name of its own download path. */
  lemma LocalNameIsPlain(fn: string)
    requires IsXlsxLinkName(fn) && forall j :: 0 <= j < |fn| ==> fn[j] != '/'
    ensures var local := LocalName(fn);
      local != "" && local != "." && forall j :: 0 <= j < |local| ==> local[j] != '/'
  {
    LocalNameOfKept(fn);
    KeptNameShape(fn);
    var c := Core(fn);
    var local := LocalName(fn);
    forall j | 0 <= j < |local| ensures local[j] != '/' {
      if j < |c| - 5 {
        assert local[j] == fn[j];
      }
    }
  }

  /** The year and month the downloader writes into the manifest are
      exactly those the batch driver would infer from the downloaded file's
      name. */
  lemma DownloadedDateAgrees(url: string, urlPath: string -> string)
    requires IsXlsxLinkName(PathName(urlPath(url)))
    ensures var e := EntryFor(url, urlPath);
      var fromName := ParseYearMonthFromFilename(PathName(e.path));
      (fromName.Some? <==> e.year.Some?) &&
      (fromName.Some? ==> e.year.value == fromName.value.year && e.month.value == fromName.value.month)
  {
    var fn := PathName(urlPath(url));
    var local := LocalName(fn);
    LocalNameIsPlain(fn);
    PathNameOfJoin("downloads", local);
    assert DownloadDir + local == "downloads" + "/" + local;
  }
}
