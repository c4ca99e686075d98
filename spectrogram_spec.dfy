/**
 * Reference definitions for the spectrogram post-processing pipeline: the
 * size derivation, the frequency and time bins, the per-row argmax, the
 * threshold filter, run-based chirp clustering and the per-frame averages.
 * The imperative SpectrogramHandler is proved against these.
 */
module SpectrogramSpec {
  import opened Common
  import Arith

  const HighRateThreshold: real := 500_000_000.0   // samples per second
  const SpeedOfLight: real := 299_792_458.0         // metres per second

  // ---- Sizes ----

  /** std::ceil on an exact real. */
  function Ceil(x: real): (r: int)
    ensures r as real - 1.0 < x <= r as real
  {
    if x.Floor as real == x then x.Floor else x.Floor + 1
  }

  /** pow(2, floor(log2(n))): the largest power of two not above n. */
  function FloorPow2(n: nat): nat
    requires n >= 1
  {
    if n == 1 then 1 else 2 * FloorPow2(n / 2)
  }

  lemma {:induction false} FloorPow2Spec(n: nat)
    requires n >= 1
    ensures IsPow2(FloorPow2(n)) && FloorPow2(n) <= n < 2 * FloorPow2(n)
  {
    if n > 1 {
      FloorPow2Spec(n / 2);
    }
  }

  /** The time one FFT window is meant to span: 0.5 us above 500 MS/s, 2 us otherwise. */
  function FreqSamplingPeriod(rate: real): real
  {
    if rate > HighRateThreshold then 0.000_000_5 else 0.000_002
  }

  datatype Sizes = Sizes(samplesPerSamplingWindow: nat, fftSize: nat, numRowsRx: nat,
                         numSamplesRx: nat, numRowsSpectrogram: nat, numSamplesPerSpectrogram: nat)

  /**
   * initialize_spectrogram_params: the window length, the FFT size, the rows
   * of the capture buffer that cover the minimum recording time and the rows
   * of the spectrogram that fit in the capture.
   */
  function SpectrogramSizes(rate: real, rxSpb: nat, minRecordingTimeMs: real): Sizes
    requires rate > 0.0 && rxSpb > 0 && minRecordingTimeMs >= 0.0
  {
    var sspw := WindowSamples(rate);
    var rows := CaptureRows(rate, rxSpb, minRecordingTimeMs);
    var samples := rows * rxSpb;
    var rowsSpec := WindowsIn(samples, sspw);
    Sizes(sspw, FloorPow2(sspw), rows, samples, rowsSpec, rowsSpec * sspw)
  }

  /**
   * The derived sizes: a window of ceil(rate * period) samples, the largest
   * power-of-two FFT that fits in it, the fewest capture rows that cover the
   * minimum recording time, and the whole windows that fit in the capture.
   */
  lemma SizesSpec(rate: real, rxSpb: nat, minRecordingTimeMs: real)
    requires rate > 0.0 && rxSpb > 0 && minRecordingTimeMs >= 0.0
    ensures var s := SpectrogramSizes(rate, rxSpb, minRecordingTimeMs);
      && s.samplesPerSamplingWindow >= 1
      && s.samplesPerSamplingWindow as real >= rate * FreqSamplingPeriod(rate) > s.samplesPerSamplingWindow as real - 1.0
      && IsPow2(s.fftSize) && s.fftSize <= s.samplesPerSamplingWindow < 2 * s.fftSize
      && s.numSamplesRx == s.numRowsRx * rxSpb
      && s.numRowsRx as real * rxSpb as real >= minRecordingTimeMs * 0.001 * rate
      && (s.numRowsRx == 0 || (s.numRowsRx - 1) as real * rxSpb as real < minRecordingTimeMs * 0.001 * rate)
      && s.numSamplesPerSpectrogram == s.numRowsSpectrogram * s.samplesPerSamplingWindow
      && s.numSamplesPerSpectrogram <= s.numSamplesRx < s.numSamplesPerSpectrogram + s.samplesPerSamplingWindow
  {
    SizesUnfold(rate, rxSpb, minRecordingTimeMs);
    WindowSamplesSpec(rate);
    CaptureRowsSpec(rate, rxSpb, minRecordingTimeMs);
    FloorPow2Spec(WindowSamples(rate));
    WindowsInSpec(CaptureRows(rate, rxSpb, minRecordingTimeMs) * rxSpb, WindowSamples(rate));
  }

  /** The fields of SpectrogramSizes, one helper each. */
  lemma SizesUnfold(rate: real, rxSpb: nat, minRecordingTimeMs: real)
    requires rate > 0.0 && rxSpb > 0 && minRecordingTimeMs >= 0.0
    ensures var s := SpectrogramSizes(rate, rxSpb, minRecordingTimeMs);
      && s.samplesPerSamplingWindow == WindowSamples(rate)
      && s.fftSize == FloorPow2(s.samplesPerSamplingWindow)
      && s.numRowsRx == CaptureRows(rate, rxSpb, minRecordingTimeMs)
      && s.numSamplesRx == s.numRowsRx * rxSpb
      && s.numRowsSpectrogram == WindowsIn(s.numSamplesRx, s.samplesPerSamplingWindow)
      && s.numSamplesPerSpectrogram == s.numRowsSpectrogram * s.samplesPerSamplingWindow
  {
  }

  /** num_rows_spectrogram: the whole windows of sspw samples in the capture. */
  function WindowsIn(samples: nat, sspw: nat): nat
    requires sspw >= 1
  {
    samples / sspw
  }

  lemma WindowsInSpec(samples: nat, sspw: nat)
    requires sspw >= 1
    ensures WindowsIn(samples, sspw) * sspw <= samples < WindowsIn(samples, sspw) * sspw + sspw
  {
    Arith.DivFloor(samples, sspw);
  }

  /** samples_per_sampling_window: ceil(rate * period). */
  function WindowSamples(rate: real): nat
    requires rate > 0.0
  {
    var window := rate * FreqSamplingPeriod(rate);
    PositiveProduct(rate, FreqSamplingPeriod(rate));
    Ceil(window)
  }

  lemma WindowSamplesSpec(rate: real)
    requires rate > 0.0
    ensures var n := WindowSamples(rate);
      n >= 1 && n as real >= rate * FreqSamplingPeriod(rate) > n as real - 1.0
  {
    PositiveProduct(rate, FreqSamplingPeriod(rate));
  }

  /** num_rows_rx_signal: ceil(min_recording_time / row_period), row_period = spb / rate. */
  function CaptureRows(rate: real, rxSpb: nat, minRecordingTimeMs: real): nat
    requires rate > 0.0 && rxSpb > 0 && minRecordingTimeMs >= 0.0
  {
    var rowPeriod := rxSpb as real / rate;
    var target := minRecordingTimeMs * 0.001;
    PositiveQuotient(rxSpb as real, rate);
    var rows := Ceil(target / rowPeriod);
    RowsCoverTime(target, rowPeriod, rxSpb, rate, rows);
    rows
  }

  lemma CaptureRowsSpec(rate: real, rxSpb: nat, minRecordingTimeMs: real)
    requires rate > 0.0 && rxSpb > 0 && minRecordingTimeMs >= 0.0
    ensures var rows := CaptureRows(rate, rxSpb, minRecordingTimeMs);
      && rows as real * rxSpb as real >= minRecordingTimeMs * 0.001 * rate
      && (rows == 0 || (rows - 1) as real * rxSpb as real < minRecordingTimeMs * 0.001 * rate)
  {
    var rowPeriod := rxSpb as real / rate;
    var target := minRecordingTimeMs * 0.001;
    PositiveQuotient(rxSpb as real, rate);
    RowsCoverTime(target, rowPeriod, rxSpb, rate, Ceil(target / rowPeriod));
  }

  lemma PositiveQuotient(a: real, b: real)
    requires a > 0.0 && b > 0.0
    ensures a / b > 0.0
  {
  }

  lemma PositiveProduct(a: real, b: real)
    requires a > 0.0 && b > 0.0
    ensures a * b > 0.0
  {
  }

  /** Multiplying both sides by a positive factor keeps a strict inequality. */
  lemma ScaleLess(a: real, b: real, c: real)
    requires a < b && c > 0.0
    ensures a * c < b * c
  {
  }

  lemma ScaleAtMost(a: real, b: real, c: real)
    requires a <= b && c > 0.0
    ensures a * c <= b * c
  {
  }

  /** Dividing by spb / rate is multiplying by rate / spb. */
  lemma DivByQuotient(t: real, a: real, b: real)
    requires a > 0.0 && b > 0.0
    ensures t / (a / b) == t * b / a
  {
  }

  lemma DivMulCancel(x: real, a: real)
    requires a > 0.0
    ensures x / a * a == x
  {
  }

  /** ceil(t / (spb / rate)) rows of spb samples last at least t and one row fewer does not. */
  lemma RowsCoverTime(target: real, rowPeriod: real, rxSpb: nat, rate: real, rows: int)
    requires rate > 0.0 && rxSpb > 0 && target >= 0.0 && rowPeriod == rxSpb as real / rate
    requires rows as real - 1.0 < target / rowPeriod <= rows as real
    ensures rows >= 0
    ensures rows as real * rxSpb as real >= target * rate
    ensures rows == 0 || (rows - 1) as real * rxSpb as real < target * rate
  {
    var spb := rxSpb as real;
    var q := target * rate / spb;
    DivByQuotient(target, spb, rate);
    assert target / rowPeriod == q;
    DivMulCancel(target * rate, spb);
    assert q * spb == target * rate;
    ScaleAtMost(q, rows as real, spb);
    PositiveOrZeroQuotient(target * rate, spb);
    OneRowFewer(rows, q, spb, target * rate);
  }

  lemma OneRowFewer(rows: int, q: real, spb: real, samples: real)
    requires spb > 0.0 && rows as real - 1.0 < q && q * spb == samples
    ensures (rows - 1) as real * spb < samples
  {
    ScaleLess(rows as real - 1.0, q, spb);
  }

  lemma PositiveOrZeroQuotient(a: real, b: real)
    requires a >= 0.0 && b > 0.0
    ensures a / b >= 0.0
  {
  }

  /**
   * Every sample that a spectrogram row's window reads, i * sspw + j with
   * j < fft, lies inside the capture buffer.
   */
  lemma WindowInsideCapture(rate: real, rxSpb: nat, minRecordingTimeMs: real, i: nat, j: nat)
    requires rate > 0.0 && rxSpb > 0 && minRecordingTimeMs >= 0.0
    requires i < SpectrogramSizes(rate, rxSpb, minRecordingTimeMs).numRowsSpectrogram
    requires j < SpectrogramSizes(rate, rxSpb, minRecordingTimeMs).fftSize
    ensures var s := SpectrogramSizes(rate, rxSpb, minRecordingTimeMs);
      i * s.samplesPerSamplingWindow + j < s.numRowsRx * rxSpb
  {
    SizesSpec(rate, rxSpb, minRecordingTimeMs);
    var s := SpectrogramSizes(rate, rxSpb, minRecordingTimeMs);
    var w := s.samplesPerSamplingWindow;
    Arith.MulLeft(i + 1, s.numRowsSpectrogram, w);
    assert i * w + j < (i + 1) * w;
  }

  // ---- Frequency and time bins ----

  /** Bin spacing in MHz. */
  function FrequencyResolution(rate: real, fftSize: nat): real
    requires fftSize > 0
  {
    rate * 0.000_001 / fftSize as real
  }

  function FrequencyBin(rate: real, fftSize: nat, i: nat): real
    requires fftSize > 0
  {
    FrequencyResolution(rate, fftSize) * i as real
  }

  /** Duration of one window in microseconds. */
  function WindowPeriodUs(rate: real, sspw: nat): real
    requires rate > 0.0
  {
    sspw as real / (rate * 0.000_001)
  }

  function TimeOffsetUs(rate: real, sspw: nat, fftSize: nat): real
    requires rate > 0.0 && sspw > 0
  {
    WindowPeriodUs(rate, sspw) * fftSize as real / 2.0 / sspw as real
  }

  function TimeBin(rate: real, sspw: nat, fftSize: nat, i: nat): real
    requires rate > 0.0 && sspw > 0
  {
    WindowPeriodUs(rate, sspw) * i as real + TimeOffsetUs(rate, sspw, fftSize)
  }

  /** Both kinds of bins increase strictly with their index. */
  lemma BinsIncrease(rate: real, sspw: nat, fftSize: nat, i: nat, j: nat)
    requires rate > 0.0 && sspw > 0 && fftSize > 0 && i < j
    ensures FrequencyBin(rate, fftSize, i) < FrequencyBin(rate, fftSize, j)
    ensures TimeBin(rate, sspw, fftSize, i) < TimeBin(rate, sspw, fftSize, j)
  {
    var res := FrequencyResolution(rate, fftSize);
    assert res > 0.0;
    assert res * i as real < res * j as real;
    var p := WindowPeriodUs(rate, sspw);
    assert p > 0.0;
    assert p * i as real < p * j as real;
  }

  /**
   * The time bin of row i is the time, in microseconds from the start of the
   * capture, of sample i * sspw + fft / 2: the centre of the row's window.
   */
  lemma TimeBinIsWindowCentre(rate: real, sspw: nat, fftSize: nat, i: nat)
    requires rate > 0.0 && sspw > 0
    ensures TimeBin(rate, sspw, fftSize, i) == (i as real * sspw as real + fftSize as real / 2.0) / (rate * 0.000_001)
  {
    var r := rate * 0.000_001;
    var w := sspw as real;
    assert WindowPeriodUs(rate, sspw) == w / r;
    assert TimeOffsetUs(rate, sspw, fftSize) == fftSize as real / 2.0 / r;
  }

  /** The delay the victim's signal takes to reach the receiver, in microseconds. */
  function DistanceDelayUs(victimDistanceM: real): (d: real)
    ensures d * SpeedOfLight == victimDistanceM * 1_000_000.0
  {
    (victimDistanceM / SpeedOfLight) * 1_000_000.0
  }

  // ---- Per-row maximum ----

  /** The first index at which s attains its maximum. */
  function FirstArgMax(s: seq<real>): (r: nat)
    requires |s| >= 1
    ensures r < |s|
  {
    if |s| == 1 then 0
    else
      var k := FirstArgMax(s[..|s| - 1]);
      if s[|s| - 1] > s[k] then |s| - 1 else k
  }

  /** No element exceeds the one at FirstArgMax, and every earlier element is smaller. */
  lemma {:induction false} FirstArgMaxSpec(s: seq<real>)
    requires |s| >= 1
    ensures forall i :: 0 <= i < |s| ==> s[i] <= s[FirstArgMax(s)]
    ensures forall i :: 0 <= i < FirstArgMax(s) ==> s[i] < s[FirstArgMax(s)]
  {
    if |s| > 1 {
      var p := s[..|s| - 1];
      FirstArgMaxSpec(p);
      assert forall i :: 0 <= i < |s| - 1 ==> s[i] == p[i];
    }
  }

  function MaxOf(s: seq<real>): real
    requires |s| >= 1
  {
    s[FirstArgMax(s)]
  }

  /** The maximum and its first index are determined by the properties FirstArgMax states. */
  lemma ArgMaxUnique(s: seq<real>, v: real, idx: nat)
    requires idx < |s| && v == s[idx]
    requires forall i :: 0 <= i < |s| ==> s[i] <= v
    requires forall i :: 0 <= i < idx ==> s[i] < v
    ensures idx == FirstArgMax(s) && v == MaxOf(s)
  {
    FirstArgMaxSpec(s);
  }

  // ---- Threshold filter ----

  /** The rows among the first n whose value exceeds the threshold, in increasing order. */
  function Kept(values: seq<real>, threshold: real, n: nat): (r: seq<nat>)
    requires n <= |values|
    ensures forall k :: 0 <= k < |r| ==> r[k] < n
  {
    if n == 0 then []
    else
      var prefix := Kept(values, threshold, n - 1);
      if values[n - 1] > threshold then prefix + [n - 1] else prefix
  }

  /**
   * The filter keeps exactly the rows above the threshold among the first n,
   * each once and in increasing order.
   */
  lemma {:induction false} KeptSpec(values: seq<real>, threshold: real, n: nat)
    requires n <= |values|
    ensures var r := Kept(values, threshold, n);
      && |r| <= n
      && (forall k :: 0 <= k < |r| ==> values[r[k]] > threshold)
      && (forall k, l :: 0 <= k < l < |r| ==> r[k] < r[l])
      && (forall i :: 0 <= i < n && values[i] > threshold ==> i in r)
  {
    if n > 0 {
      KeptSpec(values, threshold, n - 1);
    }
  }

  /** With a positive threshold the strongest row always survives the filter. */
  lemma StrongestRowKept(values: seq<real>, peakDetectionThreshold: real)
    requires |values| >= 1 && peakDetectionThreshold > 0.0
    ensures FirstArgMax(values) in Kept(values, MaxOf(values) - peakDetectionThreshold, |values|)
    ensures |Kept(values, MaxOf(values) - peakDetectionThreshold, |values|)| >= 1
  {
    KeptSpec(values, MaxOf(values) - peakDetectionThreshold, |values|);
  }

  // ---- Run-based clustering ----

  /** A run of strictly increasing frequencies begins at s. */
  predicate IsRunStart(f: seq<real>, s: nat)
    requires s < |f|
  {
    s == 0 || !(f[s] - f[s - 1] > 0.0)
  }

  function RunStart(f: seq<real>, i: nat): (s: nat)
    requires i < |f|
    ensures s <= i && IsRunStart(f, s)
    ensures forall t :: s < t <= i ==> !IsRunStart(f, t)
  {
    if IsRunStart(f, i) then i else RunStart(f, i - 1)
  }

  function RunEnd(f: seq<real>, i: nat): (e: nat)
    requires i < |f|
    ensures i < e <= |f| && (e == |f| || IsRunStart(f, e))
    ensures forall t :: i < t < e ==> !IsRunStart(f, t)
    decreases |f| - i
  {
    if i + 1 == |f| || IsRunStart(f, i + 1) then i + 1 else RunEnd(f, i + 1)
  }

  /** A run long enough to count as a chirp starts at t. */
  predicate ValidStart(f: seq<real>, minPoints: nat, t: nat)
    requires t < |f|
  {
    IsRunStart(f, t) && RunEnd(f, t) - t >= minPoints
  }

  /** The number of valid runs that start before position s. */
  function ValidRunsBefore(f: seq<real>, minPoints: nat, s: nat): (c: nat)
    requires s <= |f|
    ensures c <= s
  {
    if s == 0 then 0 else ValidRunsBefore(f, minPoints, s - 1) + (if ValidStart(f, minPoints, s - 1) then 1 else 0)
  }

  /** The cluster id of point i: 1, 2, 3, ... for valid runs in order of discovery, -1 otherwise. */
  function Label(f: seq<real>, minPoints: nat, i: nat): int
    requires i < |f|
  {
    var s := RunStart(f, i);
    if RunEnd(f, i) - s >= minPoints then 1 + ValidRunsBefore(f, minPoints, s) else -1
  }

  /** The number of clusters the labelling actually uses. */
  function ValidClusterCount(f: seq<real>, minPoints: nat): nat
  {
    ValidRunsBefore(f, minPoints, |f|)
  }

  /** max_cluster_index as compute_clusters sets it: the id after the last valid run before the final run. */
  function MaxClusterIndexAsWritten(f: seq<real>, minPoints: nat): int
  {
    if |f| == 0 then 1 else 1 + ValidRunsBefore(f, minPoints, RunStart(f, |f| - 1))
  }

  /** Every point of a run ends where its run ends. */
  lemma {:induction false} RunEndOfStart(f: seq<real>, i: nat)
    requires i < |f|
    ensures RunEnd(f, RunStart(f, i)) == RunEnd(f, i)
    decreases i
  {
    if !IsRunStart(f, i) {
      RunEndOfStart(f, i - 1);
    }
  }

  /** The positions between a run start and the next start belong to that run. */
  lemma InRun(f: seq<real>, s: nat, e: nat, k: nat)
    requires s <= k < e <= |f| && IsRunStart(f, s)
    requires e == |f| || IsRunStart(f, e)
    requires forall t :: s < t < e ==> !IsRunStart(f, t)
    ensures RunStart(f, k) == s && RunEnd(f, k) == e
  {
    var rs := RunStart(f, k);
    assert !(s < rs);
    var re := RunEnd(f, k);
    assert !(re < e);
  }

  /** No valid run starts strictly inside a run, so the count is unchanged across it. */
  lemma {:induction false} NoStartsInside(f: seq<real>, minPoints: nat, s: nat, e: nat)
    requires s < e <= |f|
    requires forall t :: s < t < e ==> !IsRunStart(f, t)
    ensures ValidRunsBefore(f, minPoints, e) == ValidRunsBefore(f, minPoints, s + 1)
    decreases e - s
  {
    if e > s + 1 {
      NoStartsInside(f, minPoints, s, e - 1);
    }
  }

  /** All points of one run carry the same label. */
  lemma SameRunSameLabel(f: seq<real>, minPoints: nat, i: nat, j: nat)
    requires i <= j < |f|
    requires forall t :: i < t <= j ==> !IsRunStart(f, t)
    ensures Label(f, minPoints, i) == Label(f, minPoints, j)
  {
    var s := RunStart(f, i);
    InRun(f, s, RunEnd(f, j), i);
    InRun(f, s, RunEnd(f, j), j);
  }

  /** Counting valid runs is monotone in the position. */
  lemma {:induction false} ValidRunsMonotone(f: seq<real>, minPoints: nat, a: nat, b: nat)
    requires a <= b <= |f|
    ensures ValidRunsBefore(f, minPoints, a) <= ValidRunsBefore(f, minPoints, b)
    decreases b - a
  {
    if a < b {
      ValidRunsMonotone(f, minPoints, a, b - 1);
    }
  }

  /**
   * Ids are handed out in order of discovery: a point of a later valid run
   * has a strictly larger id, and every id lies in 1..ValidClusterCount.
   */
  lemma LabelsInDiscoveryOrder(f: seq<real>, minPoints: nat, i: nat, j: nat)
    requires i < j < |f| && RunStart(f, i) < RunStart(f, j)
    requires Label(f, minPoints, i) > 0 && Label(f, minPoints, j) > 0
    ensures Label(f, minPoints, i) < Label(f, minPoints, j)
  {
    var si, sj := RunStart(f, i), RunStart(f, j);
    RunEndOfStart(f, i);
    assert ValidStart(f, minPoints, si);
    assert ValidRunsBefore(f, minPoints, si + 1) == ValidRunsBefore(f, minPoints, si) + 1;
    ValidRunsMonotone(f, minPoints, si + 1, sj);
  }

  lemma LabelRange(f: seq<real>, minPoints: nat, i: nat)
    requires i < |f|
    ensures Label(f, minPoints, i) == -1 || 1 <= Label(f, minPoints, i) <= ValidClusterCount(f, minPoints)
  {
    var s := RunStart(f, i);
    if Label(f, minPoints, i) != -1 {
      RunEndOfStart(f, i);
      assert ValidStart(f, minPoints, s);
      assert ValidRunsBefore(f, minPoints, s + 1) == ValidRunsBefore(f, minPoints, s) + 1;
      ValidRunsMonotone(f, minPoints, s + 1, |f|);
    }
  }

  /** Every id from 1 to ValidClusterCount labels at least one point: the start of its run. */
  lemma {:induction false} EveryClusterUsed(f: seq<real>, minPoints: nat, c: nat, s: nat)
    requires s <= |f| && 1 <= c <= ValidRunsBefore(f, minPoints, s)
    ensures exists i :: 0 <= i < s && Label(f, minPoints, i) == c
    decreases s
  {
    if c <= ValidRunsBefore(f, minPoints, s - 1) {
      EveryClusterUsed(f, minPoints, c, s - 1);
      var i :| 0 <= i < s - 1 && Label(f, minPoints, i) == c;
      assert 0 <= i < s && Label(f, minPoints, i) == c;
    } else {
      var t := s - 1;
      assert ValidStart(f, minPoints, t);
      assert RunStart(f, t) == t;
      assert Label(f, minPoints, t) == c;
    }
  }

  /**
   * max_cluster_index counts one more than the clusters that exist exactly
   * when there are no points or the final run is too short.
   */
  lemma MaxClusterIndexOvercount(f: seq<real>, minPoints: nat)
    ensures MaxClusterIndexAsWritten(f, minPoints)
         == ValidClusterCount(f, minPoints)
            + (if |f| == 0 || RunEnd(f, |f| - 1) - RunStart(f, |f| - 1) < minPoints then 1 else 0)
  {
    if |f| > 0 {
      var s := RunStart(f, |f| - 1);
      RunEndOfStart(f, |f| - 1);
      NoStartsInside(f, minPoints, s, |f|);
    }
  }

  /** Two one-point runs with a minimum of two points: max_cluster_index is 1 but no point has id 1. */
  lemma MaxClusterIndexCounterexample()
    ensures MaxClusterIndexAsWritten([1.0, 0.0], 2) == 1
    ensures ValidClusterCount([1.0, 0.0], 2) == 0
    ensures forall i :: 0 <= i < 2 ==> Label([1.0, 0.0], 2, i) == -1
  {
    var f := [1.0, 0.0];
    assert IsRunStart(f, 1);
    assert RunEnd(f, 0) == 1 && RunEnd(f, 1) == 2;
    assert !ValidStart(f, 2, 0) && !ValidStart(f, 2, 1);
  }

  // ---- Frame averages ----

  function Sum(s: seq<real>): real
  {
    if s == [] then 0.0 else Sum(s[..|s| - 1]) + s[|s| - 1]
  }

  /** chirp_tracking_average_slope: the mean of the detected slopes. */
  function Mean(s: seq<real>): real
    requires |s| >= 1
  {
    Sum(s) / |s| as real
  }

  /** chirp_tracking_average_chirp_duration: the intercept span over the number of gaps. */
  function MeanSpacing(s: seq<real>): real
    requires |s| >= 2
  {
    (s[|s| - 1] - s[0]) / (|s| - 1) as real
  }

  /** The next frame is predicted one mean frame period after the last frame start. */
  function PredictedNextStart(starts: seq<real>): real
    requires |starts| >= 2
  {
    starts[|starts| - 1] + MeanSpacing(starts)
  }

  /** A weight column counts chirps; each frame is weighted by its chirps minus one. */
  function WeightedSum(values: seq<real>, counts: seq<real>): real
    requires |values| == |counts|
  {
    if values == [] then 0.0
    else WeightedSum(values[..|values| - 1], counts[..|counts| - 1]) + values[|values| - 1] * (counts[|counts| - 1] - 1.0)
  }

  function WeightTotal(counts: seq<real>): real
  {
    if counts == [] then 0.0 else WeightTotal(counts[..|counts| - 1]) + (counts[|counts| - 1] - 1.0)
  }

  /** frame_tracking_average_chirp_slope and _duration: the chirp-weighted mean across frames. */
  function WeightedAverage(values: seq<real>, counts: seq<real>): real
    requires |values| == |counts|
    requires WeightTotal(counts) != 0.0
  {
    WeightedSum(values, counts) / WeightTotal(counts)
  }

  lemma {:induction false} SumOfEqual(s: seq<real>, v: real)
    requires forall i :: 0 <= i < |s| ==> s[i] == v
    ensures Sum(s) == |s| as real * v
  {
    if s != [] {
      SumOfEqual(s[..|s| - 1], v);
    }
  }

  /** Equal slopes average to that slope. */
  lemma MeanOfEqual(s: seq<real>, v: real)
    requires |s| >= 1 && forall i :: 0 <= i < |s| ==> s[i] == v
    ensures Mean(s) == v
  {
    SumOfEqual(s, v);
  }

  /** Evenly spaced intercepts give their spacing as the mean chirp duration. */
  lemma MeanSpacingOfArithmetic(s: seq<real>, first: real, step: real)
    requires |s| >= 2 && forall k :: 0 <= k < |s| ==> s[k] == first + k as real * step
    ensures MeanSpacing(s) == step
  {
    var n := (|s| - 1) as real;
    assert s[|s| - 1] - s[0] == n * step;
  }

  /** Periodic frame starts predict the next period's start exactly. */
  lemma PredictionOfPeriodic(starts: seq<real>, first: real, period: real)
    requires |starts| >= 2 && forall k :: 0 <= k < |starts| ==> starts[k] == first + k as real * period
    ensures PredictedNextStart(starts) == first + |starts| as real * period
  {
    MeanSpacingOfArithmetic(starts, first, period);
  }

  lemma {:induction false} WeightedSumOfEqual(values: seq<real>, counts: seq<real>, v: real)
    requires |values| == |counts| && forall i :: 0 <= i < |values| ==> values[i] == v
    ensures WeightedSum(values, counts) == v * WeightTotal(counts)
  {
    if values != [] {
      WeightedSumOfEqual(values[..|values| - 1], counts[..|counts| - 1], v);
    }
  }

  /** Counts of at least two chirps keep the weight total positive. */
  lemma {:induction false} WeightTotalPositive(counts: seq<real>)
    requires |counts| >= 1 && forall i :: 0 <= i < |counts| ==> counts[i] >= 2.0
    ensures WeightTotal(counts) >= |counts| as real
  {
    if |counts| > 1 {
      WeightTotalPositive(counts[..|counts| - 1]);
    }
  }

  /** Frames that agree on their average give that average across frames. */
  lemma WeightedAverageOfEqual(values: seq<real>, counts: seq<real>, v: real)
    requires |values| == |counts| >= 1
    requires forall i :: 0 <= i < |values| ==> values[i] == v
    requires forall i :: 0 <= i < |counts| ==> counts[i] >= 2.0
    ensures WeightTotal(counts) > 0.0 && WeightedAverage(values, counts) == v
  {
    WeightTotalPositive(counts);
    WeightedSumOfEqual(values, counts, v);
  }
}
