/** The strict tensile page: every selected upload must be a `.csv` export
    whose table starts at a marker line and has exactly six columns; its
    first row is always taken as the header, the six standard names are
    forced onto the columns, the strain and stress columns are converted to
    numbers, and the curve is those two columns. Anything else sends the
    file to the per-file error report. */
module StrictTensile {
  import opened Seqs
  import opened Text
  import opened Tabular
  import opened TensileFormat

  /** The names forced onto the six columns, in order. */
  const StandardColumns: seq<string> :=
    ["Time_s", "Extension_mm", "Force_N", "Strain_1", "Strain_2", "Stress_MPa"]

  /** Where `Strain_2` and `Stress_MPa` sit among the forced names. */
  const StrainColumn: nat := 4
  const StressColumn: nat := 5

  /** Why a file ends in the error report. */
  datatype StrictError =
    | FileMissing       // the stored file cannot be opened
    | NoMarker          // no line contains the marker: `next()` raises
    | Unreadable        // the CSV reader raised
    | NoHeaderRow       // the table has no first row to take as header
    | HeaderNotText     // the header row is not text-like, so its names cannot be stripped
    | WrongColumnCount  // the table does not have exactly six columns

  /** The result of one selected file: skipped as not CSV, failed, or the
      two-column curve (`None` where a value did not convert). */
  datatype StrictOutcome =
    | NotCsv
    | Failed(error: StrictError)
    | Curve(strain: seq<Option<real>>, stress: seq<Option<real>>)

  /** Some cell of the frame is text, so pandas reads that column as text
      and every row taken from the frame keeps its values as objects. */
  predicate HasTextCell(t: Frame) {
    exists i, j :: 0 <= i < |t.rows| && 0 <= j < |t.columns| && CellAt(t.rows[i], j).Str?
  }

  /** Whether pandas (version 2 and later) can strip the names taken from the
      first row of `t`, which it does only when that row, made an index, is
      text-like: the frame has no columns, the row holds some text, or the row
      is entirely blank in a frame with a text cell (an object index of NaN
      only, which pandas counts as empty text). A row of numbers without text,
      or a blank row of an all-numeric frame, gives a numeric index, and
      `.str` raises on it. */
  predicate StripsAsText(t: Frame)
    requires |t.rows| > 0
  {
    |t.columns| == 0
    || (exists j :: 0 <= j < |t.columns| && CellAt(t.rows[0], j).Str?)
    || ((forall j :: 0 <= j < |t.columns| ==> CellAt(t.rows[0], j).Missing?) && HasTextCell(t))
  }

  /** A column converted with `pd.to_numeric(..., errors="coerce")`. */
  function Coerced(col: seq<Cell>, rd: Reader): (r: seq<Option<real>>)
    ensures |r| == |col|
    ensures forall i :: 0 <= i < |col| && col[i].Number? ==> r[i] == Some(col[i].value)
    ensures forall i :: 0 <= i < |col| && col[i].Missing? ==> r[i].None?
    ensures forall i :: 0 <= i < |col| && col[i].Str? ==> r[i] == rd.parseNumber(col[i].text)
  {
    seq(|col|, i requires 0 <= i < |col| => NumberOf(col[i], rd))
  }

  /** What cleaning a read table must give: the errors in the order the page
      meets them, and otherwise the strain and stress columns of every row
      after the first, converted, in the same order. */
  ghost predicate CleanedFrom(r: StrictOutcome, t: Frame, rd: Reader) {
    if |t.rows| == 0 then r == Failed(NoHeaderRow)
    else if !StripsAsText(t) then r == Failed(HeaderNotText)
    else if |t.columns| != |StandardColumns| then r == Failed(WrongColumnCount)
    else
      r.Curve?
      && |r.strain| == |t.rows| - 1 && |r.stress| == |t.rows| - 1
      && (forall i :: 0 <= i < |r.strain| ==>
            r.strain[i] == NumberOf(CellAt(t.rows[i + 1], StrainColumn), rd)
            && r.stress[i] == NumberOf(CellAt(t.rows[i + 1], StressColumn), rd))
  }

  /** The in-place cleaning of a read table: drop the first row, take it as
      the column names, strip them, force the six standard names, convert the
      strain and stress columns, and keep those two. */
  method CleanTable(t: Frame, rd: Reader) returns (r: StrictOutcome)
    ensures CleanedFrom(r, t, rd)
    ensures r.Curve? ==> |t.columns| == 6 && |r.strain| == |r.stress| == |t.rows| - 1
  {
    if |t.rows| == 0 {
      return Failed(NoHeaderRow);
    }
    var data := Frame(t.columns, t.rows[1..]);
    var header := t.rows[0];
    if !StripsAsText(t) {
      return Failed(HeaderNotText);
    }
    var names := seq(|t.columns|, j requires 0 <= j < |t.columns| => Strip(AsText(CellAt(header, j), rd)));
    data := data.(columns := names);
    if |data.columns| != |StandardColumns| {
      return Failed(WrongColumnCount);
    }
    data := data.(columns := StandardColumns);
    var strain := Coerced(Column(data, StrainColumn), rd);
    var stress := Coerced(Column(data, StressColumn), rd);
    r := Curve(strain, stress);
  }

  /** The strict parse of one export: the table must start at a marker line;
      the lines from there are read as CSV and cleaned. */
  method ParseStrict(lines: seq<string>, rd: Reader) returns (r: StrictOutcome)
    ensures FirstMarker(lines).None? <==> r == Failed(NoMarker)
    ensures FirstMarker(lines).Some? ==>
      var read := rd.readCsv(lines[FirstMarker(lines).value..]);
      (read.None? ==> r == Failed(Unreadable))
      && (read.Some? ==> CleanedFrom(r, read.value, rd))
  {
    var start := FirstMarker(lines);
    if start.None? {
      return Failed(NoMarker);
    }
    var read := rd.readCsv(lines[start.value..]);
    if read.None? {
      return Failed(Unreadable);
    }
    r := CleanTable(read.value, rd);
  }

  /** One selected upload: only a path ending in `.csv` is opened and
      parsed; a file that cannot be opened is an error. */
  method AnalyseStrict(stored: string, files: map<string, seq<string>>, rd: Reader)
    returns (r: StrictOutcome)
    ensures !EndsWith(StoredPath(stored), ".csv") <==> r == NotCsv
    ensures EndsWith(StoredPath(stored), ".csv") && stored !in files ==> r == Failed(FileMissing)
    ensures r.Curve? ==> stored in files && FirstMarker(files[stored]).Some?
    ensures EndsWith(StoredPath(stored), ".csv") && stored in files ==>
      var lines := files[stored];
      (FirstMarker(lines).None? <==> r == Failed(NoMarker))
      && (FirstMarker(lines).Some? ==>
            var read := rd.readCsv(lines[FirstMarker(lines).value..]);
            (read.None? ==> r == Failed(Unreadable))
            && (read.Some? ==> CleanedFrom(r, read.value, rd)))
  {
    if !EndsWith(StoredPath(stored), ".csv") {
      return NotCsv;
    }
    if stored !in files {
      return Failed(FileMissing);
    }
    r := ParseStrict(files[stored], rd);
  }
}
