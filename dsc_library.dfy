/** The DSC library page: reading a calorimeter text export into
    (time, temperature, heat flow) samples, smoothing the heat flow, picking
    the glass transition, crystallisation and melting temperatures inside
    fixed temperature windows, integrating the peaks against a straight
    baseline into enthalpies, and deriving the crystallinity; plus the list
    of upload records. Temperatures are in degrees Celsius, heat flow in mW,
    enthalpies in J/g. */
module DscLibrary {
  import opened Seqs
  import opened Text

  // ---------------------------------------------------------------------
  // Reading the export
  // ---------------------------------------------------------------------

  datatype Sample = Sample(time: real, temperature: real, heatFlow: real)

  /** Lines of instrument header skipped before the data. */
  const HeaderSkip: nat := 56

  /** The lines after the skipped header (none if the file is shorter). */
  function DataLines(lines: seq<string>): (body: seq<string>)
    ensures |lines| <= HeaderSkip ==> body == []
    ensures |lines| > HeaderSkip ==>
      |body| == |lines| - HeaderSkip && forall i :: 0 <= i < |body| ==> body[i] == lines[i + HeaderSkip]
  {
    if |lines| <= HeaderSkip then [] else lines[HeaderSkip..]
  }

  /** The sample a line stands for: exactly three whitespace-separated
      tokens, each a number. */
  function ParseDscLine(line: string, parseNumber: string -> Option<real>): (r: Option<Sample>)
    ensures r.Some? <==>
      var parts := Tokens(Strip(line));
      |parts| == 3 && parseNumber(parts[0]).Some? && parseNumber(parts[1]).Some? && parseNumber(parts[2]).Some?
    ensures r.Some? ==>
      var parts := Tokens(Strip(line));
      r.value == Sample(parseNumber(parts[0]).value, parseNumber(parts[1]).value, parseNumber(parts[2]).value)
  {
    var parts := Tokens(Strip(line));
    if |parts| != 3 then None
    else
      match (parseNumber(parts[0]), parseNumber(parts[1]), parseNumber(parts[2]))
      case (Some(t), Some(temp), Some(hf)) => Some(Sample(t, temp, hf))
      case _ => None
  }

  /** What one line contributes: its sample, or nothing. */
  function LineSamples(line: string, parseNumber: string -> Option<real>): (r: seq<Sample>)
    ensures |r| <= 1
    ensures r == [] <==> ParseDscLine(line, parseNumber).None?
    ensures r != [] ==> r[0] == ParseDscLine(line, parseNumber).value
  {
    match ParseDscLine(line, parseNumber)
    case Some(s) => [s]
    case None => []
  }

  /** `LineSamples` as a function of the line alone. */
  function LineReader(parseNumber: string -> Option<real>): string -> seq<Sample> {
    (line: string) => LineSamples(line, parseNumber)
  }

  /** The samples of a run of lines: what each line contributes, in file
      order. */
  function SamplesOf(lines: seq<string>, parseNumber: string -> Option<real>): (r: seq<Sample>)
    ensures |r| <= |lines|
  {
    FlatMapAtMostOne(lines, LineReader(parseNumber));
    FlatMap(lines, LineReader(parseNumber))
  }

  /** Reading distributes over concatenated runs of lines, so each line
      contributes on its own and the samples keep the order of the lines. */
  lemma SamplesOfAppend(a: seq<string>, b: seq<string>, parseNumber: string -> Option<real>)
    ensures SamplesOf(a + b, parseNumber) == SamplesOf(a, parseNumber) + SamplesOf(b, parseNumber)
  {
    FlatMapAppend(a, b, LineReader(parseNumber));
  }

  /** Reading one more line appends what that line alone yields. */
  lemma SamplesOfSnoc(lines: seq<string>, line: string, parseNumber: string -> Option<real>)
    ensures SamplesOf(lines + [line], parseNumber) == SamplesOf(lines, parseNumber) + LineSamples(line, parseNumber)
  {
    FlatMapSnoc(lines, line, LineReader(parseNumber));
  }

  /** The reading loop of `load_dsc_txt`: skip the header, keep each line
      that holds exactly three numbers. */
  method LoadDscTxt(lines: seq<string>, parseNumber: string -> Option<real>) returns (data: seq<Sample>)
    ensures data == SamplesOf(DataLines(lines), parseNumber)
    ensures |data| <= |DataLines(lines)|
  {
    var body := DataLines(lines);
    data := [];
    for i := 0 to |body|
      invariant data == SamplesOf(body[..i], parseNumber)
    {
      FlatMapPrefix(body, i, LineReader(parseNumber));
      data := data + LineSamples(body[i], parseNumber);
    }
    assert body[..|body|] == body;
  }

  // ---------------------------------------------------------------------
  // The numerical library the analysis calls
  // ---------------------------------------------------------------------

  /** Savitzky-Golay smoothing of order 3 with a given window length: keeps
      the length of the series. */
  type Smoother = f: (seq<real>, nat) -> seq<real>
    | forall y: seq<real>, w: nat :: |f(y, w)| == |y|
    witness (y: seq<real>, w: nat) => y

  /** `np.gradient(y, x)`: one slope per sample. */
  type Differentiator = f: (seq<real>, seq<real>) -> seq<real>
    | forall y: seq<real>, x: seq<real> :: |f(y, x)| == |y|
    witness (y: seq<real>, x: seq<real>) => y

  /** Peak indices in strictly increasing order, each inside the series. */
  predicate IsPeakList(p: seq<nat>, n: nat) {
    (forall k :: 0 <= k < |p| ==> p[k] < n)
    && (forall k, l :: 0 <= k < l < |p| ==> p[k] < p[l])
  }

  /** `find_peaks(y, prominence=0.01, distance=50)`. */
  type PeakFinder = f: seq<real> -> seq<nat>
    | forall y: seq<real> :: IsPeakList(f(y), |y|)
    witness (y: seq<real>) => []

  datatype SignalLibrary = SignalLibrary(savgol: Smoother, gradient: Differentiator, findPeaks: PeakFinder)

  // ---------------------------------------------------------------------
  // Smoothing window
  // ---------------------------------------------------------------------

  /** The smallest series the page analyses. */
  const MinSamples: nat := 5

  /** The window rule as the page writes it: 101, or for shorter series
      `max(3, 2 * (n // 2) + 1)`. */
  function WindowLength(n: nat): (w: nat)
    ensures w % 2 == 1 && 3 <= w <= 101
    ensures n >= 101 ==> w == 101
    ensures 3 <= n < 101 && n % 2 == 1 ==> w == n
    ensures 2 <= n < 101 && n % 2 == 0 ==> w == n + 1
  {
    if n >= 101 then 101 else if 3 > (n / 2) * 2 + 1 then 3 else (n / 2) * 2 + 1
  }

  /** For an even series shorter than 101 samples the rule asks for a window
      one sample longer than the series, which the smoothing filter in its
      default interpolation mode refuses; six samples show it. */
  lemma WindowOverrunsEvenSeries()
    ensures WindowLength(6) == 7 && WindowLength(6) > 6
  {
  }

  /** The window the rule evidently intends: the largest odd length that
      fits both the series and 101. */
  function SmoothingWindow(n: nat): (w: nat)
    requires n >= MinSamples
    ensures w % 2 == 1 && 3 < w <= n && w <= 101
    ensures w == 101 || w + 1 >= n
    ensures WindowLength(n) <= n ==> w == WindowLength(n)
  {
    if n >= 101 then 101 else if n % 2 == 1 then n else n - 1
  }

  // ---------------------------------------------------------------------
  // Temperature windows and event selection
  // ---------------------------------------------------------------------

  const TgLow: real := 80.0
  const TgHigh: real := 200.0
  const TcLow: real := 200.0
  const TcHigh: real := 360.0
  const TmLow: real := 330.0
  const TmHigh: real := 420.0

  /** The indices from `start` on of the samples whose temperature lies in
      [lo, hi], in increasing order. */
  function WindowFrom(T: seq<real>, lo: real, hi: real, start: nat): (m: seq<nat>)
    requires start <= |T|
    ensures |m| <= |T| - start
    ensures forall k :: 0 <= k < |m| ==> start <= m[k] < |T| && lo <= T[m[k]] <= hi
    ensures forall k, l :: 0 <= k < l < |m| ==> m[k] < m[l]
    ensures forall i :: start <= i < |T| && lo <= T[i] <= hi ==> i in m
    decreases |T| - start
  {
    if start == |T| then []
    else
      var rest := WindowFrom(T, lo, hi, start + 1);
      if lo <= T[start] <= hi then [start] + rest else rest
  }

  /** The indices of the samples whose temperature lies in [lo, hi], in
      increasing order: the boolean mask `(T >= lo) & (T <= hi)`. */
  function WindowIndices(T: seq<real>, lo: real, hi: real): (m: seq<nat>)
    ensures |m| <= |T|
    ensures forall k :: 0 <= k < |m| ==> m[k] < |T| && lo <= T[m[k]] <= hi
    ensures forall k, l :: 0 <= k < l < |m| ==> m[k] < m[l]
    ensures forall i :: 0 <= i < |T| && lo <= T[i] <= hi ==> i in m
  {
    WindowFrom(T, lo, hi, 0)
  }

  /** `values[mask]` for a mask given by its indices. */
  function Pick(values: seq<real>, m: seq<nat>): (r: seq<real>)
    requires forall k :: 0 <= k < |m| ==> m[k] < |values|
    ensures |r| == |m|
    ensures forall k :: 0 <= k < |m| ==> r[k] == values[m[k]]
  {
    seq(|m|, k requires 0 <= k < |m| => values[m[k]])
  }

  function Abs(x: real): real {
    if x < 0.0 then -x else x
  }

  function AbsAll(s: seq<real>): (r: seq<real>)
    ensures |r| == |s| && forall k :: 0 <= k < |s| ==> r[k] == Abs(s[k])
  {
    seq(|s|, k requires 0 <= k < |s| => Abs(s[k]))
  }

  function Negated(s: seq<real>): (r: seq<real>)
    ensures |r| == |s| && forall k :: 0 <= k < |s| ==> r[k] == -s[k]
  {
    seq(|s|, k requires 0 <= k < |s| => -s[k])
  }

  /** `np.argmax`: the first position of the largest value. */
  function FirstArgMax(s: seq<real>): (k: nat)
    requires |s| > 0
    ensures k < |s|
    ensures forall j :: 0 <= j < |s| ==> s[j] <= s[k]
    ensures forall j :: 0 <= j < k ==> s[j] < s[k]
  {
    if |s| == 1 then 0
    else
      var k := FirstArgMax(s[..|s| - 1]);
      assert forall j :: 0 <= j < |s| - 1 ==> s[..|s| - 1][j] == s[j];
      if s[|s| - 1] > s[k] then |s| - 1 else k
  }

  /** A position of a strictly increasing mask whose value no masked value
      exceeds and no earlier masked value reaches is, over the whole series,
      a first maximum among the masked samples. */
  lemma MaskedMaximum(v: seq<real>, m: seq<nat>, k: nat)
    requires forall j :: 0 <= j < |m| ==> m[j] < |v|
    requires forall a, b :: 0 <= a < b < |m| ==> m[a] < m[b]
    requires k < |m|
    requires forall j :: 0 <= j < |m| ==> v[m[j]] <= v[m[k]]
    requires forall j :: 0 <= j < k ==> v[m[j]] < v[m[k]]
    ensures forall i :: i in m ==> v[i] <= v[m[k]] && (i < m[k] ==> v[i] < v[m[k]])
  {
    forall i | i in m
      ensures v[i] <= v[m[k]] && (i < m[k] ==> v[i] < v[m[k]])
    {
      var l :| 0 <= l < |m| && m[l] == i;
      if i < m[k] {
        assert l < k;
      }
    }
  }

  /** The sample of the glass transition: among the samples in the Tg window,
      the first with the steepest heat-flow slope. */
  function GlassTransitionIndex(T: seq<real>, slope: seq<real>): (r: Option<nat>)
    requires |slope| == |T|
    ensures r.None? <==> forall i :: 0 <= i < |T| ==> !(TgLow <= T[i] <= TgHigh)
    ensures r.Some? ==> r.value < |T| && TgLow <= T[r.value] <= TgHigh
    ensures r.Some? ==> forall i :: 0 <= i < |T| && TgLow <= T[i] <= TgHigh ==>
      Abs(slope[i]) <= Abs(slope[r.value])
    ensures r.Some? ==> forall i :: 0 <= i < r.value && TgLow <= T[i] <= TgHigh ==>
      Abs(slope[i]) < Abs(slope[r.value])
  {
    var m := WindowIndices(T, TgLow, TgHigh);
    if m == [] then
      None
    else
      var steep := AbsAll(slope);
      var k := FirstArgMax(Pick(steep, m));
      MaskedMaximum(steep, m, k);
      Some(m[k])
  }

  /** The sample of the first peak the peak finder reports among the samples
      in [lo, hi], if it reports any. */
  function FirstPeakIndex(T: seq<real>, y: seq<real>, lo: real, hi: real, findPeaks: PeakFinder)
    : (r: Option<nat>)
    requires |y| == |T|
    ensures r.Some? ==> r.value < |T| && lo <= T[r.value] <= hi
    ensures r.Some? <==>
      var m := WindowIndices(T, lo, hi);
      m != [] && findPeaks(Pick(y, m)) != []
    ensures r.Some? ==>
      var m := WindowIndices(T, lo, hi);
      var p := findPeaks(Pick(y, m));
      r.value == m[p[0]] && forall k :: 0 <= k < |p| ==> r.value <= m[p[k]]
  {
    var m := WindowIndices(T, lo, hi);
    if m == [] then None
    else
      var p := findPeaks(Pick(y, m));
      assert IsPeakList(p, |m|);
      if p == [] then None else Some(m[p[0]])
  }

  // ---------------------------------------------------------------------
  // Peak integration and crystallinity
  // ---------------------------------------------------------------------

  /** `np.interp(x, [x0, x1], [y0, y1])` as NumPy computes it for two points:
      clamped to y0 left of x0 and to y1 from x1 on, linear in between. */
  function Interp2(x: real, x0: real, x1: real, y0: real, y1: real): (r: real)
    ensures x0 < x1 && x <= x0 ==> r == y0
    ensures x0 < x1 && x >= x1 ==> r == y1
    ensures x0 < x < x1 ==> r == y0 + (y1 - y0) * ((x - x0) / (x1 - x0))
  {
    if x > x1 then y1
    else if x < x0 then y0
    else if x >= x1 then y1
    else if x == x0 then y0
    else y0 + (y1 - y0) * (x - x0) / (x1 - x0)
  }

  /** The heat flow minus the straight baseline through the window's first and
      last samples. */
  function BaselineCorrected(Tw: seq<real>, yw: seq<real>): (c: seq<real>)
    requires |Tw| == |yw| > 0
    ensures |c| == |yw|
    ensures forall i :: 0 <= i < |c| ==>
      c[i] == yw[i] - Interp2(Tw[i], Tw[0], Tw[|Tw| - 1], yw[0], yw[|Tw| - 1])
  {
    var n := |Tw| - 1;
    seq(|Tw|, i requires 0 <= i < |Tw| => yw[i] - Interp2(Tw[i], Tw[0], Tw[n], yw[0], yw[n]))
  }

  /** When the window's first temperature is below its last, the corrected
      signal is zero at both ends of the window. */
  lemma CorrectedEndsVanish(Tw: seq<real>, yw: seq<real>)
    requires |Tw| == |yw| > 0 && Tw[0] < Tw[|Tw| - 1]
    ensures BaselineCorrected(Tw, yw)[0] == 0.0
    ensures BaselineCorrected(Tw, yw)[|Tw| - 1] == 0.0
  {
  }

  /** A heat flow that is a straight line in temperature over a window whose
      temperatures stay between its ends leaves nothing above the baseline. */
  lemma StraightSignalVanishes(Tw: seq<real>, yw: seq<real>, a: real, b: real)
    requires |Tw| == |yw| > 0 && Tw[0] < Tw[|Tw| - 1]
    requires forall i :: 0 <= i < |Tw| ==> Tw[0] <= Tw[i] <= Tw[|Tw| - 1]
    requires forall i :: 0 <= i < |Tw| ==> yw[i] == a + b * Tw[i]
    ensures forall i :: 0 <= i < |Tw| ==> BaselineCorrected(Tw, yw)[i] == 0.0
  {
  }

  /** `np.trapz(y, x)`: the trapezoidal rule over consecutive samples. */
  function Trapz(y: seq<real>, x: seq<real>): (area: real)
    requires |y| == |x|
    ensures |x| < 2 ==> area == 0.0
  {
    if |x| < 2 then 0.0
    else
      var n := |x| - 1;
      Trapz(y[..n], x[..n]) + (x[n] - x[n - 1]) * (y[n] + y[n - 1]) / 2.0
  }

  /** The trapezoidal rule gives nothing for a signal that is zero
      everywhere. */
  lemma {:induction false} TrapzOfZero(y: seq<real>, x: seq<real>)
    requires |y| == |x|
    requires forall i :: 0 <= i < |y| ==> y[i] == 0.0
    ensures Trapz(y, x) == 0.0
  {
    if |x| >= 2 {
      TrapzOfZero(y[..|x| - 1], x[..|x| - 1]);
    }
  }

  /** `integrate_peak`: the enthalpy in J/g of the baseline-corrected heat
      flow over the samples in [left, right], for a sample of `massMg` mg
      heated at `heatRate` degrees per minute; `None` when a bound is
      undefined, fewer than three samples fall in the window, or the mass is
      not positive. */
  function IntegratePeak(T: seq<real>, y: seq<real>, left: Option<real>, right: Option<real>,
                         massMg: real, heatRate: real): (r: Option<real>)
    requires |y| == |T| && heatRate != 0.0
    ensures left.None? || right.None? ==> r.None?
    ensures left.Some? && right.Some? ==>
      var m := WindowIndices(T, left.value, right.value);
      (r.Some? <==> |m| >= 3 && massMg > 0.0)
      && (r.Some? ==>
            var Tw := Pick(T, m);
            r.value == SpecificEnthalpy(Trapz(BaselineCorrected(Tw, Pick(y, m)), Tw), heatRate, massMg))
  {
    if left.None? || right.None? then None
    else
      var m := WindowIndices(T, left.value, right.value);
      var Tw := Pick(T, m);
      var yw := Pick(y, m);
      if |Tw| < 3 then None
      else if massMg / 1000.0 > 0.0 then
        Some(SpecificEnthalpy(Trapz(BaselineCorrected(Tw, yw), Tw), heatRate, massMg))
      else None
  }

  /** The area of a peak in mW times degrees turned into J/g: divided by the
      heating rate in degrees per second (giving mJ), by 1000 (giving J) and
      by the mass in g. */
  function SpecificEnthalpy(area: real, heatRate: real, massMg: real): (h: real)
    requires heatRate != 0.0 && massMg > 0.0
    ensures h == area * 60.0 / (heatRate * massMg)
  {
    var beta := heatRate / 60.0;
    var areaMJ := area / beta;
    var areaJ := areaMJ / 1000.0;
    var massG := massMg / 1000.0;
    areaJ / massG
  }

  /** On strictly rising temperatures, the samples a window picks rise
      strictly too, so each lies between the window's first and last. */
  lemma {:induction false} PickedBetweenEnds(T: seq<real>, m: seq<nat>)
    requires forall i, j :: 0 <= i < j < |T| ==> T[i] < T[j]
    requires forall k :: 0 <= k < |m| ==> m[k] < |T|
    requires forall k, l :: 0 <= k < l < |m| ==> m[k] < m[l]
    requires |m| >= 2
    ensures var Tw := Pick(T, m);
            Tw[0] < Tw[|Tw| - 1] && forall i :: 0 <= i < |Tw| ==> Tw[0] <= Tw[i] <= Tw[|Tw| - 1]
  {
    var Tw := Pick(T, m);
    var n := |m| - 1;
    forall i | 0 <= i < |Tw|
      ensures Tw[0] <= Tw[i] <= Tw[n]
    {
      assert i > 0 ==> m[0] < m[i];
      assert i < n ==> m[i] < m[n];
    }
    assert m[0] < m[n];
  }

  /** The samples a window picks from a straight heat flow lie on the same
      line. */
  lemma PickedStraight(T: seq<real>, y: seq<real>, m: seq<nat>, a: real, b: real)
    requires |y| == |T|
    requires forall k :: 0 <= k < |m| ==> m[k] < |T|
    requires forall i :: 0 <= i < |T| ==> y[i] == a + b * T[i]
    ensures forall k :: 0 <= k < |m| ==> Pick(y, m)[k] == a + b * Pick(T, m)[k]
  {
    forall k | 0 <= k < |m|
      ensures Pick(y, m)[k] == a + b * Pick(T, m)[k]
    {
      var j := m[k];
      assert Pick(y, m)[k] == y[j];
      assert Pick(T, m)[k] == T[j];
    }
  }

  /** Over a window whose temperatures stay between its rising ends, a
      straight heat flow encloses no area with its baseline. */
  lemma StraightWindowHasNoArea(Tw: seq<real>, yw: seq<real>, a: real, b: real)
    requires |Tw| == |yw| > 0 && Tw[0] < Tw[|Tw| - 1]
    requires forall i :: 0 <= i < |Tw| ==> Tw[0] <= Tw[i] <= Tw[|Tw| - 1]
    requires forall i :: 0 <= i < |Tw| ==> yw[i] == a + b * Tw[i]
    ensures Trapz(BaselineCorrected(Tw, yw), Tw) == 0.0
  {
    StraightSignalVanishes(Tw, yw, a, b);
    TrapzOfZero(BaselineCorrected(Tw, yw), Tw);
  }

  /** A window of a strictly rising run over which the heat flow is a
      straight line in temperature encloses no area with its baseline. */
  lemma {:induction false} StraightRunWindowHasNoArea(T: seq<real>, y: seq<real>, m: seq<nat>, a: real, b: real)
    requires |y| == |T|
    requires forall i, j :: 0 <= i < j < |T| ==> T[i] < T[j]
    requires forall i :: 0 <= i < |T| ==> y[i] == a + b * T[i]
    requires forall k :: 0 <= k < |m| ==> m[k] < |T|
    requires forall k, l :: 0 <= k < l < |m| ==> m[k] < m[l]
    requires |m| >= 2
    ensures Trapz(BaselineCorrected(Pick(T, m), Pick(y, m)), Pick(T, m)) == 0.0
  {
    PickedBetweenEnds(T, m);
    PickedStraight(T, y, m, a, b);
    StraightWindowHasNoArea(Pick(T, m), Pick(y, m), a, b);
  }

  /** A heat flow that is a straight line in temperature, over a run whose
      temperatures rise strictly, has no peak: where the integral is
      defined, the enthalpy is zero. */
  lemma {:induction false} StraightHeatFlowHasNoEnthalpy(T: seq<real>, y: seq<real>, lo: real, hi: real,
                                                        a: real, b: real, massMg: real, heatRate: real)
    requires |y| == |T| && heatRate != 0.0
    requires forall i, j :: 0 <= i < j < |T| ==> T[i] < T[j]
    requires forall i :: 0 <= i < |T| ==> y[i] == a + b * T[i]
    ensures IntegratePeak(T, y, Some(lo), Some(hi), massMg, heatRate)
            == if |WindowIndices(T, lo, hi)| >= 3 && massMg > 0.0 then Some(0.0) else None
  {
    var m := WindowIndices(T, lo, hi);
    if |m| >= 3 && massMg > 0.0 {
      StraightRunWindowHasNoArea(T, y, m, a, b);
      assert SpecificEnthalpy(0.0, heatRate, massMg) == 0.0;
    }
  }

  /** Melting is endothermic and shows downwards: its enthalpy is the
      integral with the sign flipped. */
  function MeltingEnthalpy(dhM: Option<real>): (r: Option<real>)
    ensures r.Some? <==> dhM.Some?
    ensures r.Some? ==> r.value + dhM.value == 0.0
  {
    match dhM
    case None => None
    case Some(v) => Some(-v)
  }

  /** Enthalpy of fusion of the fully crystalline polymer (PEKK/PEEK), J/g. */
  const FusionEnthalpy: real := 130.0

  /** Crystallinity in percent: the melting enthalpy less the
      crystallisation enthalpy, relative to the fusion enthalpy. */
  function Crystallinity(dhMelting: Option<real>, dhCc: Option<real>): (r: Option<real>)
    ensures r.Some? <==> dhMelting.Some? && dhCc.Some?
    ensures r.Some? ==> r.value * FusionEnthalpy == (dhMelting.value - dhCc.value) * 100.0
  {
    if dhMelting.Some? && dhCc.Some? then
      Some((dhMelting.value - dhCc.value) / FusionEnthalpy * 100.0)
    else None
  }

  // ---------------------------------------------------------------------
  // The analysis
  // ---------------------------------------------------------------------

  /** Sample mass (mg) and heating rate (degrees per minute) the page
      assumes. */
  const SampleMassMg: real := 5.471
  const HeatingRate: real := 10.0

  /** Half-width of the integration window around Tc and Tm. */
  const PeakHalfWidth: real := 15.0

  datatype ThermalEvents = ThermalEvents(
    tg: Option<real>, tc: Option<real>, tm: Option<real>,
    dhCc: Option<real>, dhMelting: Option<real>, crystallinity: Option<real>)

  function Temperatures(samples: seq<Sample>): (T: seq<real>)
    ensures |T| == |samples| && forall i :: 0 <= i < |samples| ==> T[i] == samples[i].temperature
  {
    seq(|samples|, i requires 0 <= i < |samples| => samples[i].temperature)
  }

  function HeatFlows(samples: seq<Sample>): (h: seq<real>)
    ensures |h| == |samples| && forall i :: 0 <= i < |samples| ==> h[i] == samples[i].heatFlow
  {
    seq(|samples|, i requires 0 <= i < |samples| => samples[i].heatFlow)
  }

  /** The enthalpy of a peak found at temperature `peak`: the integral over
      peak ± 15 degrees, or none when no peak was found. */
  function PeakEnthalpy(T: seq<real>, hfs: seq<real>, peak: Option<real>): Option<real>
    requires |hfs| == |T|
  {
    if peak.None? then None
    else IntegratePeak(T, hfs, Some(peak.value - PeakHalfWidth), Some(peak.value + PeakHalfWidth),
                       SampleMassMg, HeatingRate)
  }

  function TemperatureAt(T: seq<real>, i: Option<nat>): Option<real>
    requires i.Some? ==> i.value < |T|
  {
    match i
    case None => None
    case Some(k) => Some(T[k])
  }

  /** The three temperatures of the analysis are what their steps give on the
      smoothed curve: Tg from the steepest slope in its window, Tc and Tm from
      the first peak of the smoothed (for Tm: negated) heat flow in their
      windows. It says what each value means through the contracts of
      GlassTransitionIndex and FirstPeakIndex, which pin those steps down. */
  lemma AnalyseDscTemperatures(samples: seq<Sample>, lib: SignalLibrary)
    requires |samples| >= MinSamples
    ensures AnalyseDsc(samples, lib).Some?
    ensures var r := AnalyseDsc(samples, lib).value;
            var T := Temperatures(samples);
            var hfs := lib.savgol(HeatFlows(samples), SmoothingWindow(|samples|));
            r.tg == TemperatureAt(T, GlassTransitionIndex(T, lib.gradient(hfs, T)))
            && r.tc == TemperatureAt(T, FirstPeakIndex(T, hfs, TcLow, TcHigh, lib.findPeaks))
            && r.tm == TemperatureAt(T, FirstPeakIndex(T, Negated(hfs), TmLow, TmHigh, lib.findPeaks))
  {
  }

  /** The enthalpies of the analysis are the integrals of the smoothed heat
      flow over Tc ± 15 and Tm ± 15 degrees (the melting one with its sign
      flipped), and the crystallinity is computed from those two. It says what
      each value means through the contracts of IntegratePeak and
      Crystallinity, which pin those steps down. */
  lemma AnalyseDscEnthalpies(samples: seq<Sample>, lib: SignalLibrary)
    requires |samples| >= MinSamples
    ensures AnalyseDsc(samples, lib).Some?
    ensures var r := AnalyseDsc(samples, lib).value;
            var T := Temperatures(samples);
            var hfs := lib.savgol(HeatFlows(samples), SmoothingWindow(|samples|));
            r.dhCc == PeakEnthalpy(T, hfs, r.tc)
            && r.dhMelting == MeltingEnthalpy(PeakEnthalpy(T, hfs, r.tm))
            && r.crystallinity == Crystallinity(r.dhMelting, r.dhCc)
  {
  }

  /** The analysis of a curve of at least five samples: smoothing, Tg from
      the steepest slope in its window, Tc and Tm from the first peak of the
      smoothed (for Tm: negated) heat flow in their windows, the enthalpies
      around Tc and Tm, and the crystallinity. */
  function AnalyseDsc(samples: seq<Sample>, lib: SignalLibrary): (r: Option<ThermalEvents>)
    ensures r.None? <==> |samples| < MinSamples
    ensures r.Some? && r.value.tg.Some? ==> TgLow <= r.value.tg.value <= TgHigh
    ensures r.Some? && r.value.tc.Some? ==> TcLow <= r.value.tc.value <= TcHigh
    ensures r.Some? && r.value.tm.Some? ==> TmLow <= r.value.tm.value <= TmHigh
    ensures r.Some? && r.value.tg.Some? ==> exists i :: 0 <= i < |samples| && samples[i].temperature == r.value.tg.value
    ensures r.Some? && r.value.tc.Some? ==> exists i :: 0 <= i < |samples| && samples[i].temperature == r.value.tc.value
    ensures r.Some? && r.value.tm.Some? ==> exists i :: 0 <= i < |samples| && samples[i].temperature == r.value.tm.value
    ensures r.Some? ==> (r.value.dhCc.Some? ==> r.value.tc.Some?) && (r.value.dhMelting.Some? ==> r.value.tm.Some?)
    ensures r.Some? ==> (r.value.crystallinity.Some? <==> r.value.dhCc.Some? && r.value.dhMelting.Some?)
    ensures r.Some? ==>
      (r.value.tg.Some? <==> exists i :: 0 <= i < |samples| && TgLow <= samples[i].temperature <= TgHigh)
  {
    if |samples| < MinSamples then None
    else
      var T := Temperatures(samples);
      var hf := HeatFlows(samples);
      var hfs := lib.savgol(hf, SmoothingWindow(|hf|));
      var iTg := GlassTransitionIndex(T, lib.gradient(hfs, T));
      var iTc := FirstPeakIndex(T, hfs, TcLow, TcHigh, lib.findPeaks);
      var iTm := FirstPeakIndex(T, Negated(hfs), TmLow, TmHigh, lib.findPeaks);
      var tg, tc, tm := TemperatureAt(T, iTg), TemperatureAt(T, iTc), TemperatureAt(T, iTm);
      var dhCc := PeakEnthalpy(T, hfs, tc);
      var dhM := PeakEnthalpy(T, hfs, tm);
      var dhMelting := MeltingEnthalpy(dhM);
      Some(ThermalEvents(tg, tc, tm, dhCc, dhMelting, Crystallinity(dhMelting, dhCc)))
  }

  // ---------------------------------------------------------------------
  // Upload records and the analysed selection
  // ---------------------------------------------------------------------

  datatype DscRecord = DscRecord(fileName: string, customName: string, uploadedBy: string, uploadTime: string)

  /** The display name of an upload: the stripped input, or the file name
      when nothing was typed. */
  function CustomName(fileName: string, input: string): (r: string)
    ensures input == [] ==> r == fileName
    ensures input != [] ==> NoOuterSpace(r) && IsTrimOf(r, input)
  {
    if input == [] then fileName else Strip(input)
  }

  /** Keeps the records that do not match both names. */
  function NotMatching(fileName: string, customName: string): DscRecord -> bool {
    (r: DscRecord) => !(r.fileName == fileName && r.customName == customName)
  }

  /** The upload metadata table of the DSC page. */
  class DscMetadata {
    var records: seq<DscRecord>

    constructor ()
      ensures records == []
    {
      records := [];
    }

    /** Saving an upload appends one record. */
    method Upload(fileName: string, input: string, user: string, time: string)
      modifies this
      ensures records == old(records) + [DscRecord(fileName, CustomName(fileName, input), user, time)]
    {
      records := records + [DscRecord(fileName, CustomName(fileName, input), user, time)];
    }

    /** A delete button: drops the records matching both the file name and
        the custom name, and keeps the others in order. */
    method Delete(fileName: string, customName: string)
      modifies this
      ensures records == Filter(old(records), NotMatching(fileName, customName))
      ensures forall i :: 0 <= i < |records| ==>
        !(records[i].fileName == fileName && records[i].customName == customName)
      ensures forall i :: 0 <= i < |old(records)|
                && !(old(records)[i].fileName == fileName && old(records)[i].customName == customName)
                ==> old(records)[i] in records
    {
      records := Filter(records, NotMatching(fileName, customName));
    }
  }

  datatype DscOutcome =
    | FileMissing
    | TooFewPoints(data: seq<Sample>)
    | Analysed(data: seq<Sample>, events: ThermalEvents)

  /** Analysing the selected custom name: the first record with that name,
      its file read and, with enough samples, analysed. */
  method AnalyseSelected(records: seq<DscRecord>, selected: string, files: map<string, seq<string>>,
                         parseNumber: string -> Option<real>, lib: SignalLibrary)
    returns (outcome: DscOutcome)
    requires exists i :: 0 <= i < |records| && records[i].customName == selected
    ensures outcome.FileMissing? <==>
      var i := FirstIndex(records, (r: DscRecord) => r.customName == selected);
      records[i.value].fileName !in files
    ensures outcome.TooFewPoints? ==> |outcome.data| < MinSamples
    ensures outcome.Analysed? ==> Some(outcome.events) == AnalyseDsc(outcome.data, lib)
    ensures !outcome.FileMissing? ==>
      var i := FirstIndex(records, (r: DscRecord) => r.customName == selected);
      outcome.data == SamplesOf(DataLines(files[records[i.value].fileName]), parseNumber)
  {
    var i := FirstIndex(records, (r: DscRecord) => r.customName == selected);
    var row := records[i.value];
    if row.fileName !in files {
      return FileMissing;
    }
    var data := LoadDscTxt(files[row.fileName], parseNumber);
    var events := AnalyseDsc(data, lib);
    if events.None? {
      return TooFewPoints(data);
    }
    outcome := Analysed(data, events.value);
  }
}
