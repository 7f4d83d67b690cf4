# Tensile and DSC test libraries — a Dafny model

This project models the data-handling core of three pages of a materials
laboratory web application. Two pages keep libraries of tensile-test machine
exports; the third keeps a library of differential scanning calorimetry (DSC)
runs.

- **Tensile Test Library (lenient, `pages/4_Tensile_Test_Library.py`).** An
  upload is stored as `<time stamp>_<sanitised name>` and recorded in a
  metadata table. Records can be deleted by stored name. For every selected
  name, the page parses the export: it finds the `Time measurement` line,
  reads the CSV from there, promotes a repeated header row and renames the
  device columns to standard names. It then reports the ultimate tensile
  strength (the maximum of the stress column) and the elongation at break
  (the strain in the last row), without cleaning the data first.
- **Tensile Test Library (strict, `pages/7_Tensile_Test_Library.py`).** The
  first row of the table is always the header. The table must have exactly
  six columns, which get fixed names. The strain and stress columns are
  converted to numbers. Any failure goes to a per-file error report.
- **DSC Library (`pages/5_DSC_Library.py`).** This page reads a text export
  after a 56-line instrument header. It smooths the heat flow and picks three
  temperatures, each inside a fixed window:
  - Tg, at the steepest slope in 80–200 °C;
  - Tc, at the first peak in 200–360 °C;
  - Tm, at the first trough in 330–420 °C.

  It then integrates the peaks ±15 °C around Tc and Tm against a straight
  baseline, giving the enthalpies in J/g, and derives the crystallinity from
  a fusion enthalpy of 130 J/g. It also keeps an upload table with uploads
  and deletes.

Modules:

| module | file | role |
|---|---|---|
| `Seqs` | `seqs.dfy` | `Option`, order-keeping `Filter`, `FirstIndex`, `Map` and `FlatMap` (the shapes of the pages' loops) |
| `Text` | `text.dfy` | Python string operations: `strip`, `lower`, `in`, `endswith`, `split()`, string order |
| `Tabular` | `tabular.dfy` | cells and frames as `pd.read_csv` gives them; `Series.max` |
| `TensileFormat` | `tensile_format.dfy` | the marker line and the upload directory, shared by both tensile pages |
| `TensileLibrary` | `tensile_library.dfy` | the lenient tensile page |
| `StrictTensile` | `strict_tensile.dfy` | the strict tensile page |
| `DscLibrary` | `dsc_library.dfy` | the DSC page |

Some library calls are not opened up. They are parameters of the model, so
every property holds for any behaviour they may have:

- `pd.read_csv`, text-to-number conversion and `str()` of a number are the
  fields of `Tabular.Reader`.
- For the DSC page, `float()` is a parameter of the loader.
- `savgol_filter`, `np.gradient` and `find_peaks` are the fields of
  `DscLibrary.SignalLibrary`. Their types carry what the analysis relies on:
  smoothing and differentiation keep the length of the series, and peaks are
  increasing indices inside the series.

Other modelling choices:

- An uploaded file's content is a map from stored name to its lines.
- NaN is `None`.
- The metadata tables are classes whose `records` field the upload and
  delete operations reassign.

## Model

| member | source | states |
|---|---|---|
| `Seqs.Filter` | pages/4_Tensile_Test_Library.py:161 | keeps exactly the elements satisfying the predicate: every kept element is in the input and satisfies it, every satisfying input element is kept, never longer than the input |
| `Seqs.FilterAppend` | pages/4_Tensile_Test_Library.py:161 | filtering a concatenation is concatenating the filtered parts (row order is kept) |
| `Seqs.FilterSingleton` | pages/4_Tensile_Test_Library.py:161 | a single row is kept exactly when it satisfies the predicate |
| `Seqs.FilterAll` | pages/4_Tensile_Test_Library.py:161 | filtering rows that all satisfy the predicate changes nothing |
| `Seqs.FilterIdempotent` | pages/4_Tensile_Test_Library.py:161 | filtering twice is filtering once, so a repeated delete changes nothing |
| `Seqs.Map` | pages/4_Tensile_Test_Library.py:179 | one image per element, in order, each the function applied to that element |
| `Seqs.MapPrefix` | pages/4_Tensile_Test_Library.py:179 | handling one more selected name appends exactly its outcome |
| `Seqs.FlatMapSnoc` | pages/5_DSC_Library.py:131-137 | one more input item appends exactly what that item yields |
| `Seqs.FlatMapPrefix` | pages/5_DSC_Library.py:131-137 | extending the processed prefix by one item appends exactly what that item yields |
| `Seqs.FlatMapAppend` | pages/5_DSC_Library.py:131-137 | the result for concatenated inputs is the concatenation of the results, in order |
| `Seqs.FlatMapAtMostOne` | pages/5_DSC_Library.py:131-137 | when each item yields at most one element, the result is no longer than the input |
| `Seqs.FirstIndex` | pages/4_Tensile_Test_Library.py:185 | the least index whose element satisfies the predicate, or `None` exactly when no element does |
| `Text.LeadingSpaces` | pages/4_Tensile_Test_Library.py:39 | the length of the whitespace run at the start of a string |
| `Text.TrailingSpaces` | pages/4_Tensile_Test_Library.py:39 | the length of the whitespace run at the end of a string |
| `Text.Strip` | pages/4_Tensile_Test_Library.py:39 | `str.strip()`: the result is a contiguous slice of the input, with only whitespace cut off either end and no whitespace left at either end |
| `Text.TrimOfSlice` | pages/4_Tensile_Test_Library.py:39 | a slice between a whitespace-only prefix and a whitespace-only suffix is a trim of the string |
| `Text.StripKeeps` | pages/4_Tensile_Test_Library.py:39 | any property of every character of a string holds of every character of its strip |
| `Text.StripNoOuterSpace` | pages/4_Tensile_Test_Library.py:39 | a string without whitespace at either end is its own strip |
| `Text.StripIdempotent` | pages/4_Tensile_Test_Library.py:102 | stripping twice is stripping once |
| `Text.StripAllSpace` | pages/4_Tensile_Test_Library.py:102 | a name made only of whitespace strips to the empty string, so the page refuses it |
| `Text.Lower` | pages/4_Tensile_Test_Library.py:63 | `str.lower()` on ASCII letters: the same length, each character lowered |
| `Text.Contains` | pages/4_Tensile_Test_Library.py:55 | the `in` operator on strings: true exactly when the pattern occurs at some position |
| `Text.EndsWith` | pages/7_Tensile_Test_Library.py:39 | `str.endswith`: true exactly when the suffix is no longer than the string and matches its last characters one by one |
| `Text.WordLength` | pages/5_DSC_Library.py:132 | the length of the first whitespace-free run of a string |
| `Text.Tokens` | pages/5_DSC_Library.py:132 | `str.split()`: every token is non-empty and holds no whitespace |
| `Text.FilterSkipsLeadingSpaces` | pages/5_DSC_Library.py:132 | leading whitespace contributes none of a line's non-whitespace characters |
| `Text.FilterKeepsLeadingWord` | pages/5_DSC_Library.py:132 | a leading word is kept whole among a line's non-whitespace characters |
| `Text.TokensKeepNonSpace` | pages/5_DSC_Library.py:132 | the tokens, joined, are exactly the non-whitespace characters of the line in order |
| `Text.TokenCount` | pages/5_DSC_Library.py:132-133 | there are exactly as many tokens as places where a word starts (a non-whitespace character at the start or after whitespace), so a line has three tokens exactly when it has three whitespace-separated words |
| `Text.TokensSplit` | pages/5_DSC_Library.py:132 | the line is its tokens laid between whitespace-only gaps, with a non-empty gap between consecutive tokens, so the tokens are exactly the maximal whitespace-free runs: "ab c" splits into "ab" and "c" |
| `Text.LexReflexive` | pages/4_Tensile_Test_Library.py:222 | Python's string order is reflexive |
| `Text.LexTotal` | pages/4_Tensile_Test_Library.py:222 | Python's string order is total |
| `Text.LexTransitive` | pages/4_Tensile_Test_Library.py:222 | Python's string order is transitive |
| `Tabular.Column` | pages/4_Tensile_Test_Library.py:204 | one cell per row, in row order; short rows are padded with NaN |
| `Tabular.ColumnNamed` | pages/4_Tensile_Test_Library.py:199-204 | `None` exactly when no column has the name; otherwise a column carrying that name |
| `Tabular.MaxNumber` | pages/4_Tensile_Test_Library.py:222 | a number of the column that no number of the column exceeds |
| `Tabular.MaxText` | pages/4_Tensile_Test_Library.py:222 | a text of the column that no text of the column exceeds in Python's string order |
| `Tabular.MaxCell` | pages/4_Tensile_Test_Library.py:222 | `Series.max()`: a column without text gives its greatest number, or NaN when it has none; a text column gives NaN (pandas raises) when it also holds a missing cell or a number, and otherwise its greatest text in Python's string order |
| `TensileFormat.FirstMarker` | pages/4_Tensile_Test_Library.py:53-57 | the first line containing `Time measurement`: no earlier line contains it, and `None` exactly when no line does |
| `TensileFormat.StoredPath` | pages/4_Tensile_Test_Library.py:186 | `os.path.join(UPLOAD_DIR, name)`: the upload directory, a separator, then exactly the stored name |
| `TensileLibrary.SafeFilename` | pages/4_Tensile_Test_Library.py:38-39 | only letters, digits, space, `.`, `_`, `-` remain, in their original order; the result is the strip of the kept characters |
| `TensileLibrary.SafeFilenameIdempotent` | pages/4_Tensile_Test_Library.py:38-39 | sanitising a sanitised name changes nothing |
| `TensileLibrary.SafeFilenameKeepsCleanName` | pages/4_Tensile_Test_Library.py:38-39 | a name of allowed characters without outer spaces is kept unchanged |
| `TensileLibrary.LastIndexOf` | pages/4_Tensile_Test_Library.py:188 | the last position of a character, or -1 when it does not occur |
| `TensileLibrary.Extension` | pages/4_Tensile_Test_Library.py:188 | `os.path.splitext(...)[1]`: non-empty exactly when the last path component has a dot with a non-dot character before it; it is then the dot-led suffix of the path without further dots or separators, i.e. it starts at the last dot |
| `TensileLibrary.StoredName` | pages/4_Tensile_Test_Library.py:105-107 | the stored name is the time stamp, `_`, then the sanitised original name |
| `TensileLibrary.DeleteUndoesUpload` | pages/4_Tensile_Test_Library.py:112-121 | deleting by the stored name of a fresh upload gives back the records as they were before the upload |
| `TensileLibrary.TensileMetadata.constructor` | pages/4_Tensile_Test_Library.py:30-32 | a new table has no records |
| `TensileLibrary.TensileMetadata.Upload` | pages/4_Tensile_Test_Library.py:99-121 | no file: warning and no change; blank name: warning and no change; otherwise the file is stored as `<ts>_<sanitised name>` and exactly one record is appended with the stripped name |
| `TensileLibrary.TensileMetadata.Delete` | pages/4_Tensile_Test_Library.py:161 | exactly the records with that stored name are removed; the others stay, in order |
| `TensileLibrary.FirstNamed` | pages/4_Tensile_Test_Library.py:180-185 | `.iloc[0]` of the rows with the selected name: a record with that name that no earlier record shares, `None` exactly when no record has it |
| `TensileLibrary.FindTableStart` | pages/4_Tensile_Test_Library.py:53-57 | the loop's start line is the first marker line, or 0 when there is none |
| `TensileLibrary.TableLines` | pages/4_Tensile_Test_Library.py:53-59 | the lines from the first marker line to the end, or the whole file without a marker |
| `TensileLibrary.PromoteHeader` | pages/4_Tensile_Test_Library.py:63-66 | with more than one row and a first-row cell reading `time measurement`, the stripped first-row texts become the column names and that row is dropped; otherwise nothing changes |
| `TensileLibrary.ParsedTable` | pages/4_Tensile_Test_Library.py:42-84 | `None` exactly when the CSV reading of the table lines raised |
| `TensileLibrary.StandardName` | pages/4_Tensile_Test_Library.py:69-76 | a device name of the rename table becomes its standard name; any other name stays |
| `TensileLibrary.StandardNameIdempotent` | pages/4_Tensile_Test_Library.py:69-80 | renaming a renamed column changes nothing |
| `TensileLibrary.RenamedByAll` | pages/4_Tensile_Test_Library.py:78-80 | the six renames applied one after the other equal the standard-name mapping |
| `TensileLibrary.RenameColumns` | pages/4_Tensile_Test_Library.py:78-80 | the rename loop keeps the number and order of columns and gives each its standard name |
| `TensileLibrary.ParsedTableShape` | pages/4_Tensile_Test_Library.py:42-84 | without a repeated header row: the CSV reading's rows, its column names standardised; with one: that row dropped and its stripped texts, standardised, as the names; the same number of columns either way, every name a fixed point of the renaming |
| `TensileLibrary.ParseCsvWithTimeMeasurement` | pages/4_Tensile_Test_Library.py:42-84 | the lenient parser computes the parsed table: marker, CSV reading, header promotion, renames |
| `TensileLibrary.Uts` | pages/4_Tensile_Test_Library.py:221-224 | a column without text: present exactly when it has a number, and no number exceeds it; a text column with a missing cell or a number: `None`; a text-only column: the conversion of its greatest text |
| `TensileLibrary.ElongationAtBreak` | pages/4_Tensile_Test_Library.py:227-230 | the strain of the last row as a number; `None` for an empty table |
| `TensileLibrary.Analyse` | pages/4_Tensile_Test_Library.py:179-260 | no metadata exactly when no record has the name; skipped as not CSV exactly when the first such record's stored path does not end in `.csv` (any case); missing columns and analysed results come only from a present, readable file, and are what its parsed table yields |
| `TensileLibrary.Metrics` | pages/4_Tensile_Test_Library.py:199-230 | missing columns exactly when `Strain_2` or `Stress_MPa` is absent; an analysed result has those two columns, both plottable, with the UTS and elongation of them |
| `TensileLibrary.AnalysedIffRequiredColumns` | pages/4_Tensile_Test_Library.py:199-213 | for a parsed file: missing columns exactly when `Strain_2` or `Stress_MPa` is absent; analysed exactly when both are present and plottable, i.e. neither is a text column holding a missing cell or a number; the curve then has one point per row |
| `TensileLibrary.AnalyseOne` | pages/4_Tensile_Test_Library.py:179-201 | one selected name: first record, `.csv` check, parse, required columns, metrics, each failure its own outcome |
| `TensileLibrary.AnalyseAll` | pages/4_Tensile_Test_Library.py:179-260 | one outcome per selected name, in order, each the analysis of that name alone, so an error in one file does not affect the others |
| `TensileLibrary.AnalyseSelected` | pages/4_Tensile_Test_Library.py:179-260 | the selection loop computes those outcomes |
| `StrictTensile.Coerced` | pages/7_Tensile_Test_Library.py:54-55 | `pd.to_numeric(errors="coerce")`: numbers stay, missing cells and text that is not a number become NaN |
| `StrictTensile.CleanTable` | pages/7_Tensile_Test_Library.py:49-58 | no first row fails; a first row that pandas cannot strip as text fails (one with no text cell, unless it is entirely blank in a frame that has a text cell); a table not of six columns fails; otherwise strain and stress of every row after the first, converted, in order |
| `StrictTensile.ParseStrict` | pages/7_Tensile_Test_Library.py:46-58 | fails exactly when no line holds the marker; a failing CSV reading is an error; otherwise the cleaning of the table read from the marker line |
| `StrictTensile.AnalyseStrict` | pages/7_Tensile_Test_Library.py:38-58 | a path not ending in `.csv` is skipped, and only then; a missing file is an error; for a present `.csv` file: no marker line is the `NoMarker` error exactly, a failing CSV reading is an error, otherwise the cleaning of the table read from the first marker line |
| `DscLibrary.DataLines` | pages/5_DSC_Library.py:131 | the lines after the 56-line header, none for a shorter file |
| `DscLibrary.ParseDscLine` | pages/5_DSC_Library.py:132-137 | a sample exactly when the stripped line splits into three tokens that all parse, made of those three numbers in order |
| `DscLibrary.LineSamples` | pages/5_DSC_Library.py:132-137 | what one line adds: at most one sample, none exactly when the line does not parse, otherwise its parsed sample |
| `DscLibrary.SamplesOf` | pages/5_DSC_Library.py:131-137 | at most one sample per line |
| `DscLibrary.SamplesOfAppend` | pages/5_DSC_Library.py:131-137 | reading distributes over concatenated runs of lines: samples keep the file order and lines contribute independently |
| `DscLibrary.SamplesOfSnoc` | pages/5_DSC_Library.py:131-137 | reading one more line appends exactly what that line alone yields |
| `DscLibrary.LoadDscTxt` | pages/5_DSC_Library.py:127-140 | the reading loop gives the samples of the lines after the header |
| `DscLibrary.WindowLength` | pages/5_DSC_Library.py:167 | the window as written: odd, 3 to 101; 101 from 101 samples on; `n` for odd `n`; `n + 1` for even `n` below 101 |
| `DscLibrary.WindowOverrunsEvenSeries` | pages/5_DSC_Library.py:167-168 | for six samples the written window is seven, longer than the series |
| `DscLibrary.SmoothingWindow` | pages/5_DSC_Library.py:167-168 | the corrected window: odd, above the polynomial order 3, at most the series length and 101, the largest such; equal to the written rule wherever that rule fits |
| `DscLibrary.WindowFrom` | pages/5_DSC_Library.py:171 | from a start index on: exactly the samples within the bounds, in increasing order |
| `DscLibrary.WindowIndices` | pages/5_DSC_Library.py:171 | the temperature mask: exactly the samples within the bounds, in increasing order |
| `DscLibrary.Pick` | pages/5_DSC_Library.py:177 | boolean-mask selection: the values at the mask's indices, in order |
| `DscLibrary.AbsAll` | pages/5_DSC_Library.py:176 | `np.abs`, element-wise |
| `DscLibrary.Negated` | pages/5_DSC_Library.py:197 | the negated signal, element-wise |
| `DscLibrary.FirstArgMax` | pages/5_DSC_Library.py:176 | `np.argmax`: a position of the largest value, earlier positions strictly smaller |
| `DscLibrary.MaskedMaximum` | pages/5_DSC_Library.py:176-177 | the first maximum among the masked values is a first maximum among the masked samples of the whole series |
| `DscLibrary.GlassTransitionIndex` | pages/5_DSC_Library.py:171-177 | undefined exactly when no sample lies in 80–200 °C; otherwise a sample in the window with the steepest slope there, the first such |
| `DscLibrary.FirstPeakIndex` | pages/5_DSC_Library.py:184-188 | defined exactly when the window is non-empty and the peak finder reports a peak in it; the sample is then the first reported peak, mapped back to the series, and lies in the window |
| `DscLibrary.Interp2` | pages/5_DSC_Library.py:215 | `np.interp` on two rising points: the first value up to the first point, the second from the second point on, the straight line between them in between |
| `DscLibrary.BaselineCorrected` | pages/5_DSC_Library.py:215-216 | each sample's heat flow minus the straight baseline through the window's first and last samples, one value per sample |
| `DscLibrary.CorrectedEndsVanish` | pages/5_DSC_Library.py:215-216 | the baseline-corrected signal is zero at both ends of a rising window |
| `DscLibrary.StraightSignalVanishes` | pages/5_DSC_Library.py:215-216 | a signal that is a straight line in temperature is corrected to zero everywhere |
| `DscLibrary.Trapz` | pages/5_DSC_Library.py:219 | `np.trapz`: zero for fewer than two samples |
| `DscLibrary.TrapzOfZero` | pages/5_DSC_Library.py:219 | the trapezoidal rule gives zero for a zero signal |
| `DscLibrary.SpecificEnthalpy` | pages/5_DSC_Library.py:217-222 | the area divided by the rate in °C/s, by 1000 and by the mass in g is the area times 60 over rate times mass in mg |
| `DscLibrary.IntegratePeak` | pages/5_DSC_Library.py:207-222 | undefined for an undefined bound, fewer than three samples in the window or a non-positive mass; otherwise the specific enthalpy of the trapezoidal area of the baseline-corrected window |
| `DscLibrary.StraightWindowHasNoArea` | pages/5_DSC_Library.py:215-219 | a straight heat flow over a window between its rising ends encloses no area with the baseline |
| `DscLibrary.StraightHeatFlowHasNoEnthalpy` | pages/5_DSC_Library.py:207-222 | on strictly rising temperatures, a heat flow that is a straight line in temperature integrates to exactly zero wherever the integral is defined |
| `DscLibrary.MeltingEnthalpy` | pages/5_DSC_Library.py:228 | defined exactly when the integral is, and its negation |
| `DscLibrary.Crystallinity` | pages/5_DSC_Library.py:231-233 | defined exactly when both enthalpies are; then (melting − crystallisation) / 130 × 100 |
| `DscLibrary.Temperatures` | pages/5_DSC_Library.py:163 | the temperature column, one per sample |
| `DscLibrary.HeatFlows` | pages/5_DSC_Library.py:164 | the heat-flow column, one per sample |
| `DscLibrary.AnalyseDsc` | pages/5_DSC_Library.py:162-233 | analysed exactly when there are at least five samples; Tg, Tc, Tm are sample temperatures inside their windows; Tg is found exactly when some sample lies in 80-200 °C; an enthalpy only with its event temperature; crystallinity exactly when both enthalpies are defined |
| `DscLibrary.AnalyseDscTemperatures` | pages/5_DSC_Library.py:163-201 | on the smoothed heat flow, Tg is the temperature of the steepest slope in its window, Tc the first peak in 200-360 °C, and Tm the first peak of the negated curve in 330-420 °C |
| `DscLibrary.AnalyseDscEnthalpies` | pages/5_DSC_Library.py:224-233 | the crystallisation and melting enthalpies are the peak integrals over Tc ± 15 and Tm ± 15 °C (the melting one negated), none without their peak; the crystallinity comes from those two |
| `DscLibrary.CustomName` | pages/5_DSC_Library.py:53 | the file name when nothing was typed, otherwise the strip of the input |
| `DscLibrary.DscMetadata.constructor` | pages/5_DSC_Library.py:37 | a new table has no records |
| `DscLibrary.DscMetadata.Upload` | pages/5_DSC_Library.py:46-58 | exactly one record is appended, with the custom-name rule |
| `DscLibrary.DscMetadata.Delete` | pages/5_DSC_Library.py:97-99 | exactly the records matching both the file name and the custom name are removed; the others stay, in order |
| `DscLibrary.AnalyseSelected` | pages/5_DSC_Library.py:115-142 | the first record with the selected name: its file missing is an error exactly when it is not stored; otherwise its samples, analysed when there are enough |

## Left out

- File and network I/O, Streamlit widgets, session and login checks, page reruns, plots, PNG and Excel downloads: not computation of the core. Files are maps from stored names to their lines.
- Reading and writing the metadata CSV files, and the repair of missing metadata columns on the DSC page (5:29-37): persistence only. The tables start empty in the model.
- Time stamps and the uploader name: these are parameters. Sorting the file list by upload time (4:135-136) only affects display.
- `pd.read_csv`, number parsing and `str()` of numbers are parameters (`Tabular.Reader`). `float()` on page 4 and `pd.to_numeric` on page 7 share one parser. Encodings (`utf-8` with ignored errors, `latin1`) are not modelled.
- `savgol_filter`, `np.gradient` and `find_peaks` are parameters. Only the properties the analysis relies on are modelled: smoothing and differentiation keep the length, and peaks are increasing indices inside the series. Their prominence and distance settings and their numerics are not modelled.
- Floating point: arithmetic is on exact reals. NaN is `None`. Infinity and the NaN that `np.gradient` produces on repeated temperatures are not modelled, and neither are `round` and number formatting in the result cards.
- `DscLibrary.Interp2`: the contract covers two rising points only. For a window whose first temperature is above its last, `np.interp` is given falling points and its result is not stated.
- `DscLibrary.IntegratePeak` requires a non-zero heating rate. The page always passes 10 °C/min.
- `TensileLibrary.SafeFilename`: only ASCII letters and digits count as alphanumeric. Python's `isalnum` also keeps other Unicode letters and digits, such as Turkish `ş` or `ı`, which the model drops.
- `Text.Lower` and `TensileLibrary.IsAsciiAlnum` handle ASCII only. Python's Unicode case mapping and `isalnum` beyond ASCII are not modelled.
- Duplicate column names: `ColumnNamed` takes the first such column, whereas pandas would return a two-column frame.
- `TensileLibrary.Metrics`: `ax.plot` is modelled only by which columns it refuses. A column holding text goes to a category axis, so a missing cell in it makes the file an error. A column whose first present cell is a number and that later holds text counts as an error as well, although matplotlib would plot it when all the texts convert to numbers. `pd.read_csv` never produces such a column, because one text cell makes the whole column text.
- Page 7 reads the selected record outside its `try` (7:35-36). An unknown name there stops the page. Only the per-file part inside the `try` (`StrictTensile.AnalyseStrict`) is modelled, and the loop over the selected names is not modelled.
- `StrictTensile.CleanTable` follows pandas 2 and later: an entirely blank first row in a frame with a text column becomes an object index of NaN, which `.str.strip()` accepts. pandas 1.x made that row a numeric index and raised, so under it such a file is an error rather than a curve. The header names of a blank row are NaN in pandas and the text "nan" in the model. This makes no difference, since only their number is used before the standard names replace them.
- `DscLibrary.AnalyseSelected` requires the selected custom name to exist. The page only offers names from the table (5:115).
- The smoothing filter's refusal of an over-long window (a crash of the page) is not a modelled outcome. The analysis uses the corrected window (see Findings).

## Findings

| source | as written | input that shows it | evidently intended | confidence | as-written member | corrected member |
|---|---|---|---|---|---|---|
| pages/5_DSC_Library.py:167-168 | for fewer than 101 samples the window is `max(3, 2 * (n // 2) + 1)`, which is `n + 1` for even `n` | a run of 6 samples (any even count from 6 to 100): window 7 > 6, and `savgol_filter` in its default `interp` mode refuses a window longer than the series, so the analysis raises | the largest odd window not longer than the series nor 101 | not executed | `DscLibrary.WindowLength`, `DscLibrary.WindowOverrunsEvenSeries` | `DscLibrary.SmoothingWindow` |
