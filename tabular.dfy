/** The slice of pandas the tensile pages use, as values: a cell read from a
    CSV file, a frame of named columns, and the library calls the pages
    delegate to (`pd.read_csv`, the text-to-number conversion of `float()` and
    `pd.to_numeric`, and `str()` of a number), which the model takes as
    parameters. */
module Tabular {
  import opened Seqs
  import opened Text

  /** A cell as `pd.read_csv` produces it: text (an object column), a number,
      or missing (NaN). */
  datatype Cell = Str(text: string) | Number(value: real) | Missing

  /** A parsed table: column names and rows of cells. */
  datatype Frame = Frame(columns: seq<string>, rows: seq<seq<Cell>>)

  /** The library functions the pages call and the model does not open up.
      `readCsv` parses the given lines as one CSV text (`None`: it raised);
      `parseNumber` is the text-to-number conversion (`None`: not a number);
      `showNumber` is `str()` of a number. */
  datatype Reader = Reader(
    readCsv: seq<string> -> Option<Frame>,
    parseNumber: string -> Option<real>,
    showNumber: real -> string)

  /** Cell `j` of a row; pandas pads a short row with NaN. */
  function CellAt(row: seq<Cell>, j: nat): Cell {
    if j < |row| then row[j] else Missing
  }

  /** Column `j` of a frame, one cell per row, rows in order. */
  function Column(f: Frame, j: nat): (c: seq<Cell>)
    ensures |c| == |f.rows|
    ensures forall i :: 0 <= i < |c| ==> c[i] == CellAt(f.rows[i], j)
  {
    seq(|f.rows|, i requires 0 <= i < |f.rows| => CellAt(f.rows[i], j))
  }

  /** The column with a given name (the first, if the name repeats). */
  function ColumnNamed(f: Frame, name: string): (c: Option<seq<Cell>>)
    ensures c.None? <==> name !in f.columns
    ensures c.Some? ==> exists j :: 0 <= j < |f.columns| && f.columns[j] == name && c.value == Column(f, j)
  {
    match FirstIndex(f.columns, (x: string) => x == name)
    case None => None
    case Some(j) => Some(Column(f, j))
  }

  /** `str(cell)`, as `astype(str)` renders it. */
  function AsText(c: Cell, rd: Reader): string {
    match c
    case Str(t) => t
    case Number(v) => rd.showNumber(v)
    case Missing => "nan"
  }

  /** The number a cell stands for, as `float(cell)` or
      `pd.to_numeric(cell, errors="coerce")` gives it; `None` for NaN and for
      text that is not a number. */
  function NumberOf(c: Cell, rd: Reader): Option<real> {
    match c
    case Str(t) => rd.parseNumber(t)
    case Number(v) => Some(v)
    case Missing => None
  }

  predicate HasNumber(col: seq<Cell>) {
    exists i :: 0 <= i < |col| && col[i].Number?
  }

  predicate HasText(col: seq<Cell>) {
    exists i :: 0 <= i < |col| && col[i].Str?
  }

  predicate HasMissing(col: seq<Cell>) {
    exists i :: 0 <= i < |col| && col[i].Missing?
  }

  /** The largest number in a column (missing and text cells ignored). */
  function MaxNumber(col: seq<Cell>): (m: real)
    requires HasNumber(col)
    ensures Number(m) in col
    ensures forall i :: 0 <= i < |col| && col[i].Number? ==> col[i].value <= m
  {
    var last := col[|col| - 1];
    var init := col[..|col| - 1];
    assert col == init + [last];
    if !HasNumber(init) then
      last.value
    else
      var m := MaxNumber(init);
      if last.Number? && last.value > m then last.value else m
  }

  /** The greatest text in a column in Python's string order. */
  function MaxText(col: seq<Cell>): (m: string)
    requires HasText(col)
    ensures Str(m) in col
    ensures forall i :: 0 <= i < |col| && col[i].Str? ==> LexLeq(col[i].text, m)
  {
    var last := col[|col| - 1];
    var init := col[..|col| - 1];
    assert col == init + [last];
    if !HasText(init) then
      assert forall i :: 0 <= i < |col| - 1 ==> col[i] == init[i];
      LexReflexive(last.text);
      last.text
    else
      var m := MaxText(init);
      if last.Str? && !LexLeq(last.text, m) then
        LexTotal(last.text, m);
        LexReflexive(last.text);
        assert forall i :: 0 <= i < |col| - 1 ==> col[i] == init[i];
        forall i | 0 <= i < |init| && init[i].Str?
          ensures LexLeq(init[i].text, last.text)
        {
          LexTransitive(init[i].text, m, last.text);
        }
        last.text
      else
        m
  }

  /** `Series.max()`. A column without text is numeric: missing cells are
      skipped, and an empty or all-missing column gives NaN (`None`). A column
      holding text is an object column: pandas puts minus infinity in place of
      its missing cells and then compares all cells, so a text column with a
      missing cell or a number cannot be compared (pandas raises; `None`
      too); otherwise the greatest text in Python's string order. */
  function MaxCell(col: seq<Cell>): (r: Option<Cell>)
    ensures r.None? <==>
      (!HasNumber(col) && !HasText(col)) || (HasText(col) && (HasNumber(col) || HasMissing(col)))
    ensures r.Some? ==> r.value in col && !r.value.Missing?
    ensures r.Some? && r.value.Number? ==>
      forall i :: 0 <= i < |col| && col[i].Number? ==> col[i].value <= r.value.value
    ensures r.Some? && r.value.Str? ==>
      forall i :: 0 <= i < |col| && col[i].Str? ==> LexLeq(col[i].text, r.value.text)
  {
    if HasText(col) then
      if HasNumber(col) || HasMissing(col) then None else Some(Str(MaxText(col)))
    else if HasNumber(col) then Some(Number(MaxNumber(col)))
    else None
  }
}
