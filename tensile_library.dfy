/** The tensile test library page: storing uploaded machine exports under a
    sanitised name, keeping and pruning the list of upload records, and, for
    each selected upload, parsing the export leniently, checking for the two
    columns the curve needs, and reporting the ultimate tensile strength and
    the elongation at break. No value of the table is cleaned or converted
    before the metrics are taken. */
module TensileLibrary {
  import opened Seqs
  import opened Text
  import opened Tabular
  import opened TensileFormat

  // ---------------------------------------------------------------------
  // File names
  // ---------------------------------------------------------------------

  predicate IsAsciiAlnum(c: char) {
    ('a' <= c <= 'z') || ('A' <= c <= 'Z') || ('0' <= c <= '9')
  }

  /** The characters a stored file name may keep. */
  predicate IsFilenameChar(c: char) {
    IsAsciiAlnum(c) || c == ' ' || c == '.' || c == '_' || c == '-'
  }

  /** The sanitised file name: the allowed characters of `name` in their
      original order, with surrounding whitespace stripped. */
  function SafeFilename(name: string): (r: string)
    ensures forall k :: 0 <= k < |r| ==> IsFilenameChar(r[k])
    ensures NoOuterSpace(r)
    ensures IsTrimOf(r, Filter(name, IsFilenameChar))
  {
    var kept := Filter(name, IsFilenameChar);
    StripKeeps(kept, IsFilenameChar);
    Strip(kept)
  }

  /** Sanitising a sanitised name changes nothing. */
  lemma SafeFilenameIdempotent(name: string)
    ensures SafeFilename(SafeFilename(name)) == SafeFilename(name)
  {
    var r := SafeFilename(name);
    FilterAll(r, IsFilenameChar);
    StripNoOuterSpace(r);
  }

  /** A name made only of allowed characters, with no space at either end,
      is kept as it is. */
  lemma SafeFilenameKeepsCleanName(name: string)
    requires forall k :: 0 <= k < |name| ==> IsFilenameChar(name[k])
    requires NoOuterSpace(name)
    ensures SafeFilename(name) == name
  {
    FilterAll(name, IsFilenameChar);
    StripNoOuterSpace(name);
  }

  /** Index of the last `c` in `s`, or -1. */
  function LastIndexOf(s: string, c: char): (r: int)
    ensures -1 <= r < |s|
    ensures r >= 0 ==> s[r] == c
    ensures forall k :: r < k < |s| ==> s[k] != c
  {
    if s == [] then -1
    else if s[|s| - 1] == c then |s| - 1
    else LastIndexOf(s[..|s| - 1], c)
  }

  /** The extension that `os.path.splitext` splits off a path: from the last
      dot of the final path component, provided that dot is not part of the
      component's leading run of dots; otherwise "". */
  function Extension(p: string): (e: string)
    ensures e == [] || (e[0] == '.' && EndsWith(p, e))
    ensures forall k :: 1 <= k < |e| ==> e[k] != '.' && e[k] != '/'
    ensures e != [] <==> exists k, d :: 0 <= k < d < |p| && p[k] != '.' && p[d] == '.' && NoSeparatorFrom(p, k)
  {
    var sep := LastIndexOf(p, '/');
    var dot := LastIndexOf(p, '.');
    if dot > sep && exists k :: sep + 1 <= k < dot && p[k] != '.' then
      var k :| sep + 1 <= k < dot && p[k] != '.';
      assert NoSeparatorFrom(p, k);
      p[dot..]
    else
      assert forall k, d :: 0 <= k < d < |p| && p[k] != '.' && p[d] == '.' && NoSeparatorFrom(p, k) ==>
        sep < k && d <= dot;
      ""
  }

  /** No path separator at index `k` of `p` or after it: `k` lies in the
      last path component. */
  predicate NoSeparatorFrom(p: string, k: nat) {
    forall l :: k <= l < |p| ==> p[l] != '/'
  }

  // ---------------------------------------------------------------------
  // Upload records
  // ---------------------------------------------------------------------

  /** One row of the upload metadata table. */
  datatype TensileRecord = TensileRecord(
    storedFilename: string,
    originalFilename: string,
    userGivenName: string,
    uploader: string,
    timestamp: string)

  datatype UploadStatus = NoFileSelected | NameRequired | Stored(storedFilename: string)

  /** The name a file uploaded at time stamp `ts` is stored under. */
  function StoredName(ts: string, originalName: string): (r: string)
    ensures |r| == |ts| + 1 + |SafeFilename(originalName)|
    ensures r[..|ts|] == ts && r[|ts|] == '_' && r[|ts| + 1..] == SafeFilename(originalName)
  {
    ts + "_" + SafeFilename(originalName)
  }

  /** Keeps the records whose stored name is not `key`. */
  function StoredOtherThan(key: string): TensileRecord -> bool {
    (r: TensileRecord) => r.storedFilename != key
  }

  /** Deleting by stored name right after an upload under a fresh stored name
      gives back the records as they were before the upload. */
  lemma DeleteUndoesUpload(records: seq<TensileRecord>, rec: TensileRecord)
    requires forall i :: 0 <= i < |records| ==> records[i].storedFilename != rec.storedFilename
    ensures Filter(records + [rec], StoredOtherThan(rec.storedFilename)) == records
  {
    FilterAppend(records, [rec], StoredOtherThan(rec.storedFilename));
    FilterAll(records, StoredOtherThan(rec.storedFilename));
    FilterSingleton(rec, StoredOtherThan(rec.storedFilename));
  }

  /** The upload metadata table, updated by the upload button and by the
      delete buttons. */
  class TensileMetadata {
    var records: seq<TensileRecord>

    constructor ()
      ensures records == []
    {
      records := [];
    }

    /** The upload button: needs a file and a non-blank name; the file is
        stored as `<time stamp>_<sanitised original name>` and one record is
        appended. */
    method Upload(fileName: Option<string>, userGivenName: string, uploader: string, ts: string)
      returns (status: UploadStatus)
      modifies this
      ensures fileName.None? ==> status == NoFileSelected && records == old(records)
      ensures fileName.Some? && Strip(userGivenName) == [] ==>
        status == NameRequired && records == old(records)
      ensures fileName.Some? && Strip(userGivenName) != [] ==>
        status == Stored(StoredName(ts, fileName.value))
        && records == old(records) + [TensileRecord(StoredName(ts, fileName.value),
                                                    SafeFilename(fileName.value),
                                                    Strip(userGivenName), uploader, ts)]
    {
      if fileName.None? {
        status := NoFileSelected;
      } else if Strip(userGivenName) == [] {
        status := NameRequired;
      } else {
        var cleaned := SafeFilename(fileName.value);
        var stored := ts + "_" + cleaned;
        records := records + [TensileRecord(stored, cleaned, Strip(userGivenName), uploader, ts)];
        status := Stored(stored);
      }
    }

    /** A delete button: drops every record with that stored name and keeps
        the others in order. */
    method Delete(storedFilename: string)
      modifies this
      ensures records == Filter(old(records), StoredOtherThan(storedFilename))
      ensures forall i :: 0 <= i < |records| ==> records[i].storedFilename != storedFilename
      ensures forall i :: 0 <= i < |old(records)| && old(records)[i].storedFilename != storedFilename
                ==> old(records)[i] in records
    {
      records := Filter(records, StoredOtherThan(storedFilename));
    }
  }

  /** The first record carrying a user-given name. */
  function FirstNamed(records: seq<TensileRecord>, name: string): (r: Option<TensileRecord>)
    ensures r.Some? ==> r.value in records && r.value.userGivenName == name
    ensures r.None? <==> forall i :: 0 <= i < |records| ==> records[i].userGivenName != name
    ensures r.Some? ==> exists i :: 0 <= i < |records| && records[i] == r.value
                          && forall k :: 0 <= k < i ==> records[k].userGivenName != name
  {
    match FirstIndex(records, (x: TensileRecord) => x.userGivenName == name)
    case None => None
    case Some(i) => Some(records[i])
  }

  // ---------------------------------------------------------------------
  // Parsing an export
  // ---------------------------------------------------------------------

  /** The loop that looks for the marker line: the first line containing the
      marker, or line 0 if none does. */
  method FindTableStart(lines: seq<string>) returns (start: nat)
    ensures start == FirstMarker(lines).GetOr(0)
    ensures start == 0 || start < |lines|
  {
    start := 0;
    for i := 0 to |lines|
      invariant forall k :: 0 <= k < i ==> !HasMarker(lines[k])
      invariant start == 0
    {
      if HasMarker(lines[i]) {
        start := i;
        break;
      }
    }
  }

  /** The lines handed to the CSV reader: from the marker line (or the top)
      to the end. */
  function TableLines(lines: seq<string>): (t: seq<string>)
    ensures FirstMarker(lines).None? ==> t == lines
    ensures FirstMarker(lines).Some? ==> |t| >= 1 && HasMarker(t[0])
    ensures FirstMarker(lines).Some? ==> t == lines[FirstMarker(lines).value..]
    ensures exists i :: 0 <= i <= |lines| && t == lines[i..]
  {
    var i := FirstMarker(lines).GetOr(0);
    assert lines[0..] == lines;
    lines[i..]
  }

  /** A first-row cell that repeats the marker header. */
  predicate IsHeaderCell(c: Cell) {
    c.Str? && Lower(Strip(c.text)) == "time measurement"
  }

  /** Some exports repeat the header as the first data row. */
  predicate RepeatsHeader(f: Frame) {
    |f.rows| > 1 && exists j :: 0 <= j < |f.columns| && IsHeaderCell(CellAt(f.rows[0], j))
  }

  /** Promotes a repeated header row: its cells, as text and stripped, become
      the column names, and the row leaves the data; otherwise nothing
      changes. */
  function PromoteHeader(f: Frame, rd: Reader): (r: Frame)
    ensures |r.columns| == |f.columns|
    ensures !RepeatsHeader(f) ==> r == f
    ensures RepeatsHeader(f) ==> r.rows == f.rows[1..]
    ensures RepeatsHeader(f) ==>
      forall j :: 0 <= j < |f.columns| ==> r.columns[j] == Strip(AsText(CellAt(f.rows[0], j), rd))
  {
    if RepeatsHeader(f) then
      Frame(seq(|f.columns|, j requires 0 <= j < |f.columns| => Strip(AsText(CellAt(f.rows[0], j), rd))),
            f.rows[1..])
    else f
  }

  /** The device column names and the standard names they become, in the
      order the page renames them. */
  const RenameMap: seq<(string, string)> := [
    ("Time measurement", "Time_s"),
    ("Extension", "Extension_mm"),
    ("Force", "Force_N"),
    ("Strain 1", "Strain_1"),
    ("Strain 2", "Strain_2"),
    ("Stress", "Stress_MPa")
  ]

  /** The standard name of a column: a known device name maps to its
      standard name, any other name stays as it is. */
  function StandardName(c: string): (r: string)
    ensures forall k :: 0 <= k < |RenameMap| && RenameMap[k].0 == c ==> r == RenameMap[k].1
    ensures (forall k :: 0 <= k < |RenameMap| ==> RenameMap[k].0 != c) ==> r == c
  {
    assert RenameMap[0].0 == "Time measurement" && RenameMap[1].0 == "Extension";
    assert RenameMap[2].0 == "Force" && RenameMap[3].0 == "Strain 1";
    assert RenameMap[4].0 == "Strain 2" && RenameMap[5].0 == "Stress";
    if c == "Time measurement" then "Time_s"
    else if c == "Extension" then "Extension_mm"
    else if c == "Force" then "Force_N"
    else if c == "Strain 1" then "Strain_1"
    else if c == "Strain 2" then "Strain_2"
    else if c == "Stress" then "Stress_MPa"
    else c
  }

  /** A standard name is no device name, so renaming twice is renaming once. */
  lemma StandardNameIdempotent(c: string)
    ensures StandardName(StandardName(c)) == StandardName(c)
  {
  }

  /** A name after the first `k` renames of the table have been applied one
      after the other. */
  function RenamedBy(k: nat, c: string): string
    requires k <= |RenameMap|
  {
    if k == 0 then c
    else
      var prev := RenamedBy(k - 1, c);
      if prev == RenameMap[k - 1].0 then RenameMap[k - 1].1 else prev
  }

  /** Applying the six renames one after the other gives the standard name. */
  lemma RenamedByAll(c: string)
    ensures RenamedBy(|RenameMap|, c) == StandardName(c)
  {
    assert RenamedBy(1, c) == if c == "Time measurement" then "Time_s" else c;
    assert RenamedBy(2, c) == if c == "Extension" then "Extension_mm" else RenamedBy(1, c);
    assert RenamedBy(3, c) == if c == "Force" then "Force_N" else RenamedBy(2, c);
    assert RenamedBy(4, c) == if c == "Strain 1" then "Strain_1" else RenamedBy(3, c);
    assert RenamedBy(5, c) == if c == "Strain 2" then "Strain_2" else RenamedBy(4, c);
  }

  /** The rename loop: each known device name present among the columns is
      replaced by its standard name; the other names, the number of columns
      and their order stay. */
  method RenameColumns(columns: seq<string>) returns (renamed: seq<string>)
    ensures |renamed| == |columns|
    ensures forall j :: 0 <= j < |columns| ==> renamed[j] == StandardName(columns[j])
  {
    renamed := columns;
    for k := 0 to |RenameMap|
      invariant |renamed| == |columns|
      invariant forall j :: 0 <= j < |columns| ==> renamed[j] == RenamedBy(k, columns[j])
    {
      var (from, to) := RenameMap[k];
      if from in renamed {
        renamed := seq(|renamed|, j requires 0 <= j < |renamed| => if renamed[j] == from then to else renamed[j]);
      }
    }
    forall j | 0 <= j < |columns| ensures renamed[j] == StandardName(columns[j]) {
      RenamedByAll(columns[j]);
    }
  }

  /** The table the lenient parser produces: the CSV reading of the lines
      from the marker on, header row promoted where repeated, columns given
      their standard names; `None` when the reader raised. */
  function ParsedTable(lines: seq<string>, rd: Reader): (r: Option<Frame>)
    ensures r.None? <==> rd.readCsv(TableLines(lines)).None?
  {
    match rd.readCsv(TableLines(lines))
    case None => None
    case Some(f) =>
      var p := PromoteHeader(f, rd);
      Some(Frame(seq(|p.columns|, j requires 0 <= j < |p.columns| => StandardName(p.columns[j])), p.rows))
  }

  /** The shape of a parsed table, in terms of the CSV reading: as many
      columns; without a repeated header, the reading's rows and its column
      names standardised; with one, that row taken off the top and its
      stripped texts standardised as the names. Every name is then a fixed
      point of the renaming. */
  lemma ParsedTableShape(lines: seq<string>, rd: Reader)
    requires ParsedTable(lines, rd).Some?
    ensures rd.readCsv(TableLines(lines)).Some?
    ensures var f := rd.readCsv(TableLines(lines)).value;
            var t := ParsedTable(lines, rd).value;
            |t.columns| == |f.columns|
            && (!RepeatsHeader(f) ==>
                  t.rows == f.rows
                  && forall j :: 0 <= j < |t.columns| ==> t.columns[j] == StandardName(f.columns[j]))
            && (RepeatsHeader(f) ==>
                  |f.rows| > 1 && t.rows == f.rows[1..]
                  && forall j :: 0 <= j < |t.columns| ==>
                       t.columns[j] == StandardName(Strip(AsText(CellAt(f.rows[0], j), rd))))
            && (forall j :: 0 <= j < |t.columns| ==> StandardName(t.columns[j]) == t.columns[j])
  {
    var f := rd.readCsv(TableLines(lines)).value;
    var t := ParsedTable(lines, rd).value;
    forall j | 0 <= j < |t.columns| ensures StandardName(t.columns[j]) == t.columns[j] {
      StandardNameIdempotent(PromoteHeader(f, rd).columns[j]);
    }
  }

  /** The lenient parser: finds the marker line, reads the table from there,
      promotes a repeated header row and renames the device columns. */
  method ParseCsvWithTimeMeasurement(lines: seq<string>, rd: Reader) returns (table: Option<Frame>)
    ensures table == ParsedTable(lines, rd)
  {
    var start := FindTableStart(lines);
    var read := rd.readCsv(lines[start..]);
    if read.None? {
      return None;
    }
    var df := PromoteHeader(read.value, rd);
    var names := RenameColumns(df.columns);
    assert names == seq(|df.columns|, j requires 0 <= j < |df.columns| => StandardName(df.columns[j]));
    table := Some(Frame(names, df.rows));
  }

  // ---------------------------------------------------------------------
  // Metrics and the per-file analysis
  // ---------------------------------------------------------------------

  /** Ultimate tensile strength: the maximum of the stress column, converted
      to a number; `None` where pandas gives NaN or raises. */
  function Uts(stress: seq<Cell>, rd: Reader): (r: Option<real>)
    ensures r.Some? ==> exists i :: 0 <= i < |stress| && NumberOf(stress[i], rd) == r
    ensures !HasText(stress) ==> (r.Some? <==> HasNumber(stress))
    ensures !HasText(stress) && r.Some? ==>
      forall i :: 0 <= i < |stress| && stress[i].Number? ==> stress[i].value <= r.value
    ensures HasText(stress) && (HasNumber(stress) || HasMissing(stress)) ==> r.None?
    ensures HasText(stress) && !HasNumber(stress) && !HasMissing(stress) ==>
      r == rd.parseNumber(MaxText(stress))
  {
    match MaxCell(stress)
    case None => None
    case Some(c) => NumberOf(c, rd)
  }

  /** Elongation at break: the strain in the last row, converted to a
      number; `None` for an empty table. */
  function ElongationAtBreak(strain: seq<Cell>, rd: Reader): (r: Option<real>)
    ensures strain == [] ==> r.None?
    ensures strain != [] ==> r == NumberOf(strain[|strain| - 1], rd)
  {
    if strain == [] then None else NumberOf(strain[|strain| - 1], rd)
  }

  /** What the page shows for one selected name. `FileError` is the per-file
      error report: an exception raised while the file is opened, read or
      plotted. */
  datatype TensileOutcome =
    | NoMetadata
    | NotCsv
    | FileError
    | MissingColumns
    | Analysed(strain: seq<Cell>, stress: seq<Cell>, uts: Option<real>, elongation: Option<real>)

  /** The analysis of one selected name: the first record with that name, its
      stored file if it is a `.csv` file, the lenient parse, the two required
      columns and the metrics. A file that cannot be opened or read ends in
      `FileError`. */
  function Analyse(records: seq<TensileRecord>, name: string, files: map<string, seq<string>>, rd: Reader)
    : (r: TensileOutcome)
    ensures r == NoMetadata <==> FirstNamed(records, name).None?
    ensures r == NotCsv <==>
      FirstNamed(records, name).Some?
      && Lower(Extension(StoredPath(FirstNamed(records, name).value.storedFilename))) != ".csv"
    ensures r.Analysed? || r == MissingColumns ==>
      var stored := FirstNamed(records, name).value.storedFilename;
      stored in files && ParsedTable(files[stored], rd).Some?
      && r == Metrics(ParsedTable(files[stored], rd).value, rd)
  {
    match FirstNamed(records, name)
    case None => NoMetadata
    case Some(rec) =>
      if Lower(Extension(StoredPath(rec.storedFilename))) != ".csv" then NotCsv
      else if rec.storedFilename !in files then FileError
      else
        match ParsedTable(files[rec.storedFilename], rd)
        case None => FileError
        case Some(t) => Metrics(t, rd)
  }

  /** Whether `ax.plot` accepts a column. A column holding text is drawn on
      a category axis, which takes text only: a missing cell or a number in
      it raises. A column without text is drawn as numbers. */
  predicate Plottable(col: seq<Cell>) {
    HasText(col) ==> !HasNumber(col) && !HasMissing(col)
  }

  /** What a parsed table yields: `MissingColumns` without the two required
      columns; the error report when the curve cannot be plotted; otherwise
      the curve and the metrics. */
  function Metrics(t: Frame, rd: Reader): (r: TensileOutcome)
    ensures !r.NoMetadata? && !r.NotCsv?
    ensures r == MissingColumns <==> "Strain_2" !in t.columns || "Stress_MPa" !in t.columns
    ensures r.Analysed? ==>
      Some(r.strain) == ColumnNamed(t, "Strain_2") && Some(r.stress) == ColumnNamed(t, "Stress_MPa")
      && Plottable(r.strain) && Plottable(r.stress)
      && r.uts == Uts(r.stress, rd) && r.elongation == ElongationAtBreak(r.strain, rd)
  {
    match (ColumnNamed(t, "Strain_2"), ColumnNamed(t, "Stress_MPa"))
    case (Some(strain), Some(stress)) =>
      if !Plottable(strain) || !Plottable(stress) then FileError
      else Analysed(strain, stress, Uts(stress, rd), ElongationAtBreak(strain, rd))
    case _ => MissingColumns
  }

  /** A file lacks its required columns exactly when it has no `Strain_2` or
      no `Stress_MPa` column after parsing, and is analysed exactly when it
      has both and both can be plotted; the curve is then those two columns,
      row for row. */
  lemma AnalysedIffRequiredColumns(records: seq<TensileRecord>, name: string,
                                   files: map<string, seq<string>>, rd: Reader, t: Frame)
    requires FirstNamed(records, name).Some?
    requires var rec := FirstNamed(records, name).value;
             Lower(Extension(StoredPath(rec.storedFilename))) == ".csv"
             && rec.storedFilename in files
             && ParsedTable(files[rec.storedFilename], rd) == Some(t)
    ensures Analyse(records, name, files, rd) == MissingColumns <==>
      "Strain_2" !in t.columns || "Stress_MPa" !in t.columns
    ensures Analyse(records, name, files, rd).Analysed? <==>
      "Strain_2" in t.columns && "Stress_MPa" in t.columns
      && Plottable(ColumnNamed(t, "Strain_2").value) && Plottable(ColumnNamed(t, "Stress_MPa").value)
    ensures Analyse(records, name, files, rd).Analysed? ==>
      var o := Analyse(records, name, files, rd);
      |o.strain| == |o.stress| == |t.rows|
  {
    assert Analyse(records, name, files, rd) == Metrics(t, rd);
  }

  /** One selected name, computed the way the page does it. */
  method AnalyseOne(records: seq<TensileRecord>, name: string, files: map<string, seq<string>>, rd: Reader)
    returns (outcome: TensileOutcome)
    ensures outcome == Analyse(records, name, files, rd)
  {
    var rec := FirstNamed(records, name);
    if rec.None? {
      return NoMetadata;
    }
    var stored := rec.value.storedFilename;
    if Lower(Extension(StoredPath(stored))) != ".csv" {
      return NotCsv;
    }
    if stored !in files {
      return FileError;
    }
    var table := ParseCsvWithTimeMeasurement(files[stored], rd);
    if table.None? {
      return FileError;
    }
    var strain := ColumnNamed(table.value, "Strain_2");
    var stress := ColumnNamed(table.value, "Stress_MPa");
    if strain.None? || stress.None? {
      return MissingColumns;
    }
    if !Plottable(strain.value) || !Plottable(stress.value) {
      return FileError;
    }
    outcome := Analysed(strain.value, stress.value, Uts(stress.value, rd), ElongationAtBreak(strain.value, rd));
  }

  /** `Analyse` as a function of the selected name alone. */
  function Analyser(records: seq<TensileRecord>, files: map<string, seq<string>>, rd: Reader)
    : string -> TensileOutcome
  {
    (name: string) => Analyse(records, name, files, rd)
  }

  /** The outcomes of a list of selected names, one per name, in order. */
  function AnalyseAll(records: seq<TensileRecord>, names: seq<string>,
                      files: map<string, seq<string>>, rd: Reader): (r: seq<TensileOutcome>)
    ensures |r| == |names|
    ensures forall i :: 0 <= i < |names| ==> r[i] == Analyse(records, names[i], files, rd)
  {
    Map(names, Analyser(records, files, rd))
  }

  /** The loop over the selected names: every name gets its own outcome, and
      an error in one file does not stop the others. */
  method AnalyseSelected(records: seq<TensileRecord>, names: seq<string>,
                         files: map<string, seq<string>>, rd: Reader)
    returns (outcomes: seq<TensileOutcome>)
    ensures outcomes == AnalyseAll(records, names, files, rd)
  {
    outcomes := [];
    for i := 0 to |names|
      invariant outcomes == Map(names[..i], Analyser(records, files, rd))
    {
      MapPrefix(names, i, Analyser(records, files, rd));
      var o := AnalyseOne(records, names[i], files, rd);
      outcomes := outcomes + [o];
    }
    assert names[..|names|] == names;
  }
}
