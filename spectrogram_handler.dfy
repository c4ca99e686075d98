/**
 * SpectrogramHandler: the buffers of the sensing subsystem and the in-place
 * steps of process_received_signal other than the FFT and the least-squares
 * fit. Each method is proved against the reference definitions of
 * SpectrogramSpec.
 */
module Spectrogram {
  import opened Common
  import opened SpectrogramSpec
  import Arith

  /** Row i of a 2-D buffer. */
  function Row(a: array2<real>, i: nat): (r: seq<real>)
    requires i < a.Length0
    reads a
    ensures |r| == a.Length1
  {
    seq(a.Length1, j requires 0 <= j < a.Length1 reads a => a[i, j])
  }

  /** Column c of the first n rows of a 2-D buffer. */
  function Column(a: array2<real>, c: nat, n: nat): (r: seq<real>)
    requires c < a.Length1 && n <= a.Length0
    reads a
    ensures |r| == n
  {
    seq(n, i requires 0 <= i < n reads a => a[i, c])
  }

  /** Buffer_1D::set_val_at_indicies(v, from, to): fills the half-open range [from, to). */
  method SetValAtIndicies(a: array<int>, v: int, from: nat, to: nat)
    requires from <= to <= a.Length
    modifies a
    ensures forall k :: 0 <= k < a.Length ==> a[k] == if from <= k < to then v else old(a[k])
  {
    for k := from to to
      invariant forall l :: 0 <= l < a.Length ==> a[l] == if from <= l < k then v else old(a[l])
    {
      a[k] := v;
    }
  }

  class SpectrogramHandler {
    // configuration and sizes
    const samplingRate: real
    const minRecordingTimeMs: real
    const samplesPerSamplingWindow: nat
    const fftSize: nat
    const numRowsRxSignal: nat
    const samplesPerBufferRxSignal: nat
    const numRowsSpectrogram: nat
    const numSamplesRxSignal: nat
    const numSamplesPerSpectrogram: nat
    const peakDetectionThreshold: real
    const minPointsPerChirp: nat

    // frequency and timing bins
    var frequencies: seq<real>
    var times: seq<real>
    var detectionStartTimeUs: real

    // clustering
    var maxClusterIndex: int

    // chirp and frame tracking
    var chirpTrackingNumCapturedChirps: nat
    var chirpTrackingAverageSlope: real
    var chirpTrackingAverageChirpDuration: real
    var frameTrackingNumCapturedFrames: nat
    var frameTrackingAverageFrameDuration: real
    var frameTrackingAverageChirpDuration: real
    var frameTrackingAverageChirpSlope: real

    // buffers
    const rxBuffer: array2<Complex>
    const reshapedAndWindowedSignalForFft: array2<Complex>
    const hanningWindow: array<Complex>
    const generatedSpectrogram: array2<real>
    const spectrogramPointsValues: array<real>
    const spectrogramPointsIndicies: array<nat>
    var detectedTimes: seq<real>
    var detectedFrequencies: seq<real>
    const clusterIndicies: array<int>
    /** Columns: frame duration, number of chirps, average slope, average chirp duration, start time, predicted next start. */
    const capturedFrames: array2<real>

    /** The buffers have the shapes initialize_buffers gives them. */
    predicate Shapes()
    {
      && rxBuffer.Length0 == numRowsRxSignal && rxBuffer.Length1 == samplesPerBufferRxSignal
      && reshapedAndWindowedSignalForFft.Length0 == numRowsSpectrogram
      && reshapedAndWindowedSignalForFft.Length1 == fftSize
      && hanningWindow.Length == fftSize
      && generatedSpectrogram.Length0 == numRowsSpectrogram && generatedSpectrogram.Length1 == fftSize
      && spectrogramPointsValues.Length == numRowsSpectrogram
      && spectrogramPointsIndicies.Length == numRowsSpectrogram
      && clusterIndicies.Length == numRowsSpectrogram
      && capturedFrames.Length1 == 6
      && rxBuffer != reshapedAndWindowedSignalForFft
      && generatedSpectrogram != capturedFrames
    }

    /** The sizes are the ones initialize_spectrogram_params derives from the configuration. */
    ghost predicate SizesDerived()
    {
      && samplingRate > 0.0 && samplesPerBufferRxSignal > 0 && minRecordingTimeMs >= 0.0
      && SpectrogramSizes(samplingRate, samplesPerBufferRxSignal, minRecordingTimeMs)
         == Sizes(samplesPerSamplingWindow, fftSize, numRowsRxSignal, numSamplesRxSignal,
                  numRowsSpectrogram, numSamplesPerSpectrogram)
    }

    ghost predicate Valid()
      reads this`frequencies, this`times, this`detectedTimes, this`detectedFrequencies,
            this`frameTrackingNumCapturedFrames, capturedFrames
    {
      && Shapes()
      && samplingRate > 0.0 && samplesPerBufferRxSignal > 0 && samplesPerSamplingWindow > 0 && fftSize > 0
      && |frequencies| == fftSize && |times| == numRowsSpectrogram
      && |detectedTimes| == |detectedFrequencies| <= numRowsSpectrogram
      && FramesValid()
    }

    /** Every captured frame has at least two chirps, so the chirp weights are positive. */
    ghost predicate FramesValid()
      reads this`frameTrackingNumCapturedFrames, capturedFrames
    {
      && capturedFrames.Length1 == 6 && frameTrackingNumCapturedFrames <= capturedFrames.Length0
      && forall i :: 0 <= i < frameTrackingNumCapturedFrames ==> capturedFrames[i, 1] >= 2.0
    }

    /**
     * The constructor for a configuration that has every key: sizes, buffers,
     * bins, clustering and tracking state. The Hann window's values are given.
     */
    constructor (samplingRate: real, rxSpb: nat, minRecordingTimeMs: real, peakDetectionThreshold: real,
                 minPointsPerChirp: nat, numVictimFramesToCapture: nat, hann: seq<Complex>)
      requires samplingRate > 0.0 && rxSpb > 0 && minRecordingTimeMs >= 0.0
      requires |hann| == SpectrogramSizes(samplingRate, rxSpb, minRecordingTimeMs).fftSize
      ensures Valid() && SizesDerived()
      ensures this.peakDetectionThreshold == peakDetectionThreshold && this.minPointsPerChirp == minPointsPerChirp
      ensures hanningWindow[..] == hann && capturedFrames.Length0 == numVictimFramesToCapture
      ensures forall i :: 0 <= i < fftSize ==> frequencies[i] == FrequencyBin(samplingRate, fftSize, i)
      ensures forall i :: 0 <= i < numRowsSpectrogram ==> times[i] == TimeBin(samplingRate, samplesPerSamplingWindow, fftSize, i)
      ensures maxClusterIndex == 0 && frameTrackingNumCapturedFrames == 0 && chirpTrackingNumCapturedChirps == 0
      ensures detectedTimes == [] && detectedFrequencies == []
      ensures fresh(rxBuffer) && fresh(reshapedAndWindowedSignalForFft) && fresh(hanningWindow)
      ensures fresh(generatedSpectrogram) && fresh(spectrogramPointsValues) && fresh(spectrogramPointsIndicies)
      ensures fresh(clusterIndicies) && fresh(capturedFrames)
    {
      SizesSpec(samplingRate, rxSpb, minRecordingTimeMs);
      var s := SpectrogramSizes(samplingRate, rxSpb, minRecordingTimeMs);
      this.samplingRate := samplingRate;
      this.minRecordingTimeMs := minRecordingTimeMs;
      samplesPerSamplingWindow := s.samplesPerSamplingWindow;
      fftSize := s.fftSize;
      numRowsRxSignal := s.numRowsRx;
      samplesPerBufferRxSignal := rxSpb;
      numSamplesRxSignal := s.numSamplesRx;
      numRowsSpectrogram := s.numRowsSpectrogram;
      numSamplesPerSpectrogram := s.numSamplesPerSpectrogram;
      this.peakDetectionThreshold := peakDetectionThreshold;
      this.minPointsPerChirp := minPointsPerChirp;
      rxBuffer := new Complex[s.numRowsRx, rxSpb]((_, _) => Zero);
      reshapedAndWindowedSignalForFft := new Complex[s.numRowsSpectrogram, s.fftSize]((_, _) => Zero);
      hanningWindow := new Complex[s.fftSize](i requires 0 <= i < s.fftSize => hann[i]);
      generatedSpectrogram := new real[s.numRowsSpectrogram, s.fftSize]((_, _) => 0.0);
      spectrogramPointsValues := new real[s.numRowsSpectrogram](_ => 0.0);
      spectrogramPointsIndicies := new nat[s.numRowsSpectrogram](_ => 0);
      clusterIndicies := new int[s.numRowsSpectrogram](_ => 0);
      capturedFrames := new real[numVictimFramesToCapture, 6]((_, _) => 0.0);
      detectedTimes := [];
      detectedFrequencies := [];
      maxClusterIndex := 0;
      chirpTrackingNumCapturedChirps := 0;
      chirpTrackingAverageSlope := 0.0;
      chirpTrackingAverageChirpDuration := 0.0;
      frameTrackingNumCapturedFrames := 0;
      frameTrackingAverageFrameDuration := 0.0;
      frameTrackingAverageChirpDuration := 0.0;
      frameTrackingAverageChirpSlope := 0.0;
      var freqs, bins := FreqAndTimingBins(samplingRate, s.samplesPerSamplingWindow, s.fftSize, s.numRowsSpectrogram);
      frequencies := freqs;
      times := bins;
    }

    /** set_detection_start_time_us: the capture start moved back by the victim's propagation delay. */
    method SetDetectionStartTimeUs(startTimeUs: real, victimDistanceM: real)
      modifies this`detectionStartTimeUs
      ensures detectionStartTimeUs == startTimeUs - DistanceDelayUs(victimDistanceM)
      ensures detectionStartTimeUs * SpeedOfLight == startTimeUs * SpeedOfLight - victimDistanceM * 1_000_000.0
    {
      var distanceDelayUs := (victimDistanceM / SpeedOfLight) * 1_000_000.0;
      detectionStartTimeUs := startTimeUs - distanceDelayUs;
    }

    /** load_and_prepare_for_fft: strided windows of the capture, one per spectrogram row. */
    method LoadAndPrepareForFft()
      requires Shapes() && numRowsRxSignal > 0 && samplesPerBufferRxSignal > 0
      modifies reshapedAndWindowedSignalForFft
      ensures forall i, j :: 0 <= i < numRowsSpectrogram && 0 <= j < fftSize ==>
        reshapedAndWindowedSignalForFft[i, j] == WindowedSample(rxBuffer, hanningWindow, samplesPerSamplingWindow, i, j)
    {
      for i := 0 to numRowsSpectrogram
        invariant forall r, c :: 0 <= r < i && 0 <= c < fftSize ==>
          reshapedAndWindowedSignalForFft[r, c] == WindowedSample(rxBuffer, hanningWindow, samplesPerSamplingWindow, r, c)
      {
        FillWindowedRow(reshapedAndWindowedSignalForFft, rxBuffer, hanningWindow, samplesPerSamplingWindow, i);
      }
    }

    /** compute_max_val: the largest value and the first index holding it (the comparison is strict). */
    method ComputeMaxVal(signal: seq<real>) returns (max: real, idx: nat)
      requires |signal| >= 1
      ensures idx < |signal| && max == signal[idx]
      ensures forall i :: 0 <= i < |signal| ==> signal[i] <= max
      ensures forall i :: 0 <= i < idx ==> signal[i] < max
    {
      max := signal[0];
      idx := 0;
      for i := 0 to |signal|
        invariant idx < |signal| && max == signal[idx] && (i == 0 ==> idx == 0)
        invariant forall k :: 0 <= k < i ==> signal[k] <= max
        invariant forall k :: 0 <= k < idx ==> signal[k] < max
      {
        if signal[i] > max {
          max := signal[i];
          idx := i;
        }
      }
    }

    /**
     * detect_peaks_in_spectrogram: every row's maximum and its index, then
     * the (time, frequency) of each row whose maximum is above the global
     * maximum minus the threshold, in row order.
     */
    method DetectPeaksInSpectrogram()
      requires Valid() && numRowsSpectrogram >= 1
      modifies spectrogramPointsValues, spectrogramPointsIndicies, this`detectedTimes, this`detectedFrequencies
      ensures Valid()
      ensures forall i :: 0 <= i < numRowsSpectrogram ==> spectrogramPointsIndicies[i] < fftSize
      ensures RowPeaksRecorded()
      ensures PeaksCollected(MaxOf(spectrogramPointsValues[..]) - peakDetectionThreshold)
    {
      var absoluteMaxVal := RecordRowMaxima();
      CollectPeaks(absoluteMaxVal - peakDetectionThreshold);
    }

    /**
     * The detected points are, in row order, the (time, frequency) of each
     * row whose recorded maximum is above the threshold.
     */
    ghost predicate PeaksCollected(threshold: real)
      requires Valid()
      requires forall i :: 0 <= i < numRowsSpectrogram ==> spectrogramPointsIndicies[i] < fftSize
      reads this`frequencies, this`times, this`detectedTimes, this`detectedFrequencies,
            this`frameTrackingNumCapturedFrames, capturedFrames, spectrogramPointsValues, spectrogramPointsIndicies
    {
      var kept := Kept(spectrogramPointsValues[..], threshold, numRowsSpectrogram);
      && |detectedTimes| == |kept|
      && forall k :: 0 <= k < |kept| ==>
           && detectedTimes[k] == times[kept[k]]
           && detectedFrequencies[k] == frequencies[spectrogramPointsIndicies[kept[k]]]
    }

    /** Every row's maximum and the first index holding it are recorded. */
    ghost predicate RowPeaksRecorded()
      requires Shapes() && fftSize >= 1
      reads generatedSpectrogram, spectrogramPointsValues, spectrogramPointsIndicies
    {
      forall i :: 0 <= i < numRowsSpectrogram ==>
        && spectrogramPointsValues[i] == MaxOf(Row(generatedSpectrogram, i))
        && spectrogramPointsIndicies[i] == FirstArgMax(Row(generatedSpectrogram, i))
    }

    /** The first loop of detect_peaks_in_spectrogram: row maxima and the running absolute maximum. */
    method RecordRowMaxima() returns (absoluteMaxVal: real)
      requires Shapes() && numRowsSpectrogram >= 1 && fftSize >= 1
      modifies spectrogramPointsValues, spectrogramPointsIndicies
      ensures RowPeaksRecorded()
      ensures absoluteMaxVal == MaxOf(spectrogramPointsValues[..])
    {
      var g := generatedSpectrogram;
      var values := spectrogramPointsValues;
      var indicies := spectrogramPointsIndicies;
      ghost var rows := seq(numRowsSpectrogram, r requires 0 <= r < numRowsSpectrogram reads g => Row(g, r));
      absoluteMaxVal := g[0, 0];
      ghost var absIdx: nat := 0;
      ghost var maxima: seq<real> := [];
      ghost var peaks: seq<nat> := [];
      for i := 0 to numRowsSpectrogram
        invariant |maxima| == |peaks| == i
        invariant values[..i] == maxima && indicies[..i] == peaks
        invariant forall r {:trigger rows[r]} :: 0 <= r < i ==>
          maxima[r] == MaxOf(rows[r]) && peaks[r] == FirstArgMax(rows[r])
        invariant i == 0 ==> absoluteMaxVal == g[0, 0]
        invariant absIdx <= i && (i > 0 ==> absIdx < i && absoluteMaxVal == maxima[absIdx])
        invariant forall r :: 0 <= r < i ==> maxima[r] <= absoluteMaxVal
        invariant forall r :: 0 <= r < absIdx ==> maxima[r] < absoluteMaxVal
      {
        var row := Row(g, i);
        assert row == rows[i];
        var maxVal, idx := RowPeak(row);
        values[i] := maxVal;
        indicies[i] := idx;
        maxima := maxima + [maxVal];
        peaks := peaks + [idx];
        if maxVal > absoluteMaxVal {
          absoluteMaxVal := maxVal;
          absIdx := i;
        }
      }
      assert values[..] == maxima && indicies[..] == peaks;
      ArgMaxUnique(maxima, absoluteMaxVal, absIdx);
      forall r | 0 <= r < numRowsSpectrogram
        ensures values[r] == MaxOf(Row(g, r)) && indicies[r] == FirstArgMax(Row(g, r))
      {
        assert rows[r] == Row(g, r);
        assert values[r] == maxima[r] && indicies[r] == peaks[r];
      }
    }

    /** A call of compute_max_val on one row, restated through the reference argmax. */
    method RowPeak(row: seq<real>) returns (maxVal: real, idx: nat)
      requires |row| >= 1
      ensures idx < |row| && maxVal == row[idx] == MaxOf(row) && idx == FirstArgMax(row) && row[0] <= maxVal
    {
      maxVal, idx := ComputeMaxVal(row);
      ArgMaxUnique(row, maxVal, idx);
    }

    /** The second loop of detect_peaks_in_spectrogram: the rows above the threshold, in order. */
    method CollectPeaks(threshold: real)
      requires Valid()
      requires forall i :: 0 <= i < numRowsSpectrogram ==> spectrogramPointsIndicies[i] < fftSize
      modifies this`detectedTimes, this`detectedFrequencies
      ensures Valid()
      ensures PeaksCollected(threshold)
    {
      detectedTimes, detectedFrequencies :=
        PeaksAbove(spectrogramPointsValues[..], spectrogramPointsIndicies[..], times, frequencies, threshold);
      KeptSpec(spectrogramPointsValues[..], threshold, numRowsSpectrogram);
    }

    /**
     * compute_clusters: each maximal run of strictly increasing detected
     * frequencies gets one label, the slots past the detected points are
     * zeroed, and max_cluster_index is left as the source sets it.
     */
    method ComputeClusters()
      requires Valid()
      modifies clusterIndicies, this`maxClusterIndex
      ensures Valid()
      ensures forall i :: 0 <= i < |detectedFrequencies| ==>
        clusterIndicies[i] == Label(detectedFrequencies, minPointsPerChirp, i)
      ensures forall i :: |detectedFrequencies| <= i < numRowsSpectrogram ==> clusterIndicies[i] == 0
      ensures maxClusterIndex == MaxClusterIndexAsWritten(detectedFrequencies, minPointsPerChirp)
    {
      var numDetectedPoints := |detectedFrequencies|;
      var chirp := LabelRuns(clusterIndicies, detectedFrequencies, minPointsPerChirp);
      maxClusterIndex := chirp;
      for i := numDetectedPoints to numRowsSpectrogram
        invariant maxClusterIndex == chirp
        invariant forall l :: 0 <= l < numDetectedPoints ==>
          clusterIndicies[l] == Label(detectedFrequencies, minPointsPerChirp, l)
        invariant forall l :: numDetectedPoints <= l < i ==> clusterIndicies[l] == 0
      {
        clusterIndicies[i] := 0;
      }
    }

    /**
     * compute_victim_parameters: the chirp averages of the current frame go
     * into row frames - 1 of captured_frames, with the frame duration, the
     * predicted next frame start and the chirp-weighted averages across frames.
     */
    method ComputeVictimParameters(detectedSlopes: seq<real>, detectedIntercepts: seq<real>)
      requires Valid()
      requires |detectedSlopes| == |detectedIntercepts| >= 2
      requires frameTrackingNumCapturedFrames < capturedFrames.Length0
      modifies capturedFrames, this`chirpTrackingNumCapturedChirps, this`chirpTrackingAverageSlope,
               this`chirpTrackingAverageChirpDuration, this`frameTrackingNumCapturedFrames,
               this`frameTrackingAverageFrameDuration, this`frameTrackingAverageChirpSlope,
               this`frameTrackingAverageChirpDuration
      ensures FramesValid()
      ensures chirpTrackingNumCapturedChirps == |detectedSlopes|
      ensures chirpTrackingAverageSlope == Mean(detectedSlopes)
      ensures chirpTrackingAverageChirpDuration == MeanSpacing(detectedIntercepts)
      ensures frameTrackingNumCapturedFrames == old(frameTrackingNumCapturedFrames) + 1
      ensures var r := old(frameTrackingNumCapturedFrames);
        && (forall i, j :: 0 <= i < capturedFrames.Length0 && 0 <= j < 6 && i != r ==>
              capturedFrames[i, j] == old(capturedFrames[i, j]))
        && FrameStored(r, |detectedSlopes| as real, Mean(detectedSlopes), MeanSpacing(detectedIntercepts),
                       detectedIntercepts[0])
        && (r == 0 ==> frameTrackingAverageFrameDuration == old(frameTrackingAverageFrameDuration))
      ensures FrameAveragesCurrent()
    {
      chirpTrackingNumCapturedChirps := |detectedSlopes|;
      chirpTrackingAverageSlope, chirpTrackingAverageChirpDuration := ChirpAverages(detectedSlopes, detectedIntercepts);
      RecordFrame(chirpTrackingNumCapturedChirps as real, chirpTrackingAverageSlope,
                  chirpTrackingAverageChirpDuration, detectedIntercepts[0]);
    }

    /** The cross-frame averages are the chirp-weighted means of columns 2 and 3 over the captured frames. */
    ghost predicate FrameAveragesCurrent()
      requires Shapes() && FramesValid() && frameTrackingNumCapturedFrames >= 1
      reads this`frameTrackingNumCapturedFrames, this`frameTrackingAverageChirpSlope,
            this`frameTrackingAverageChirpDuration, capturedFrames
    {
      && frameTrackingAverageChirpSlope == FrameAverage(2)
      && frameTrackingAverageChirpDuration == FrameAverage(3)
    }

    /** Column c of the captured frames, each frame weighted by its chirp count minus one. */
    ghost function FrameAverage(c: nat): real
      requires Shapes() && FramesValid() && frameTrackingNumCapturedFrames >= 1 && c < 6
      reads this`frameTrackingNumCapturedFrames, capturedFrames
    {
      var n := frameTrackingNumCapturedFrames;
      WeightTotalPositive(Column(capturedFrames, 1, n));
      WeightedAverage(Column(capturedFrames, c, n), Column(capturedFrames, 1, n))
    }

    /** The frame part of compute_victim_parameters, from the frame count's increment on. */
    method RecordFrame(count: real, slope: real, duration: real, start: real)
      requires Shapes() && FramesValid() && frameTrackingNumCapturedFrames < capturedFrames.Length0
      requires count >= 2.0
      modifies capturedFrames, this`frameTrackingNumCapturedFrames, this`frameTrackingAverageFrameDuration,
               this`frameTrackingAverageChirpSlope, this`frameTrackingAverageChirpDuration
      ensures FramesValid() && frameTrackingNumCapturedFrames == old(frameTrackingNumCapturedFrames) + 1
      ensures var r := old(frameTrackingNumCapturedFrames);
        && (forall i, j :: 0 <= i < capturedFrames.Length0 && 0 <= j < 6 && i != r ==>
              capturedFrames[i, j] == old(capturedFrames[i, j]))
        && FrameStored(r, count, slope, duration, start)
        && (r == 0 ==> frameTrackingAverageFrameDuration == old(frameTrackingAverageFrameDuration))
      ensures FrameAveragesCurrent()
    {
      frameTrackingNumCapturedFrames := frameTrackingNumCapturedFrames + 1;
      var r := frameTrackingNumCapturedFrames - 1;
      StoreFrame(r, count, slope, duration, start);
      UpdateFrameAverages();
    }

    /** The two cross-frame loops of compute_victim_parameters. */
    method UpdateFrameAverages()
      requires Shapes() && FramesValid() && frameTrackingNumCapturedFrames >= 1
      modifies this`frameTrackingAverageChirpSlope, this`frameTrackingAverageChirpDuration
      ensures FrameAveragesCurrent()
    {
      frameTrackingAverageChirpSlope := FrameWeightedAverage(2);
      frameTrackingAverageChirpDuration := FrameWeightedAverage(3);
    }

    /**
     * Row r of captured_frames holds the count, the averages and the start
     * time given; its duration and predicted next start are zero for the
     * first frame, and otherwise come from the start times of frames 0..r.
     */
    ghost predicate FrameStored(r: nat, count: real, slope: real, duration: real, start: real)
      requires Shapes() && r < capturedFrames.Length0
      reads this`frameTrackingAverageFrameDuration, capturedFrames
    {
      && capturedFrames[r, 1] == count && capturedFrames[r, 2] == slope
      && capturedFrames[r, 3] == duration && capturedFrames[r, 4] == start
      && (r == 0 ==> capturedFrames[r, 0] == 0.0 && capturedFrames[r, 5] == 0.0)
      && (r > 0 ==> capturedFrames[r, 0] == capturedFrames[r, 4] - capturedFrames[r - 1, 4]
                    && frameTrackingAverageFrameDuration == MeanSpacing(Column(capturedFrames, 4, r + 1))
                    && capturedFrames[r, 5] == PredictedNextStart(Column(capturedFrames, 4, r + 1)))
    }

    /** Writes row r of captured_frames: count, averages, start, then duration and prediction. */
    method StoreFrame(r: nat, count: real, slope: real, duration: real, start: real)
      requires Shapes() && r + 1 == frameTrackingNumCapturedFrames <= capturedFrames.Length0
      requires count >= 2.0
      requires forall i :: 0 <= i < r ==> capturedFrames[i, 1] >= 2.0
      modifies capturedFrames, this`frameTrackingAverageFrameDuration
      ensures forall i :: 0 <= i <= r ==> capturedFrames[i, 1] >= 2.0
      ensures forall i, j :: 0 <= i < capturedFrames.Length0 && 0 <= j < 6 && i != r ==>
        capturedFrames[i, j] == old(capturedFrames[i, j])
      ensures FrameStored(r, count, slope, duration, start)
      ensures r == 0 ==> frameTrackingAverageFrameDuration == old(frameTrackingAverageFrameDuration)
    {
      capturedFrames[r, 1] := count;
      capturedFrames[r, 2] := slope;
      capturedFrames[r, 3] := duration;
      capturedFrames[r, 4] := start;
      if frameTrackingNumCapturedFrames > 1 {
        capturedFrames[r, 0] := capturedFrames[r, 4] - capturedFrames[r - 1, 4];
        frameTrackingAverageFrameDuration := (capturedFrames[r, 4] - capturedFrames[0, 4]) / r as real;
        capturedFrames[r, 5] := capturedFrames[r, 4] + frameTrackingAverageFrameDuration;
        var starts := Column(capturedFrames, 4, r + 1);
        assert starts[r] == capturedFrames[r, 4] && starts[0] == capturedFrames[0, 4];
      } else {
        capturedFrames[r, 0] := 0.0;
        capturedFrames[r, 5] := 0.0;
      }
    }

    /** One of the two cross-frame loops: column c weighted by each frame's chirp count minus one. */
    method FrameWeightedAverage(c: nat) returns (average: real)
      requires Shapes() && FramesValid() && 2 <= c <= 3 && frameTrackingNumCapturedFrames >= 1
      ensures average == FrameAverage(c)
    {
      var n := frameTrackingNumCapturedFrames;
      var sumValues := 0.0;
      var sumCount := 0.0;
      for i := 0 to n
        invariant sumValues == WeightedSum(Column(capturedFrames, c, i), Column(capturedFrames, 1, i))
        invariant sumCount == WeightTotal(Column(capturedFrames, 1, i))
      {
        assert Column(capturedFrames, c, i + 1)[..i] == Column(capturedFrames, c, i);
        assert Column(capturedFrames, 1, i + 1)[..i] == Column(capturedFrames, 1, i);
        sumValues := sumValues + capturedFrames[i, c] * (capturedFrames[i, 1] - 1.0);
        sumCount := sumCount + (capturedFrames[i, 1] - 1.0);
      }
      WeightTotalPositive(Column(capturedFrames, 1, n));
      average := sumValues / sumCount;
    }
  }

  /**
   * The chirp part of compute_victim_parameters: the slope loop's sum over
   * the number of chirps, and the intercept span over the number of gaps.
   */
  method ChirpAverages(slopes: seq<real>, intercepts: seq<real>) returns (slope: real, duration: real)
    requires |slopes| == |intercepts| >= 2
    ensures slope == Mean(slopes) && duration == MeanSpacing(intercepts)
  {
    var n := |slopes|;
    var sum := 0.0;
    for i := 0 to n
      invariant sum == Sum(slopes[..i])
    {
      assert slopes[..i + 1][..i] == slopes[..i];
      sum := sum + slopes[i];
    }
    assert slopes[..n] == slopes;
    slope := sum / n as real;
    duration := (intercepts[n - 1] - intercepts[0]) / (n - 1) as real;
  }

  /**
   * One cell of the reshaped signal: sample k = i * stride + j of the capture,
   * read row after row, times window[j]; zero once k runs past the last row.
   */
  function WindowedSample(rx: array2<Complex>, window: array<Complex>, stride: nat, i: nat, j: nat): Complex
    requires rx.Length1 > 0 && j < window.Length
    reads rx, window
  {
    var k := i * stride + j;
    if k / rx.Length1 >= rx.Length0 then Zero else Mul(rx[k / rx.Length1, k % rx.Length1], window[j])
  }

  /** One pass of the outer loop of load_and_prepare_for_fft: row i of out and nothing else. */
  method FillWindowedRow(out: array2<Complex>, rx: array2<Complex>, window: array<Complex>, stride: nat, i: nat)
    requires out != rx && i < out.Length0 && out.Length1 == window.Length && rx.Length1 > 0
    modifies out
    ensures forall c :: 0 <= c < out.Length1 ==> out[i, c] == WindowedSample(rx, window, stride, i, c)
    ensures forall r, c :: 0 <= r < out.Length0 && 0 <= c < out.Length1 && r != i ==> out[r, c] == old(out[r, c])
  {
    var m := rx.Length0;
    var n := rx.Length1;
    ghost var want := seq(out.Length1, c requires 0 <= c < out.Length1 reads rx, window => WindowedSample(rx, window, stride, i, c));
    for j := 0 to out.Length1
      invariant forall c :: 0 <= c < j ==> out[i, c] == want[c]
      invariant forall r, c :: 0 <= r < out.Length0 && 0 <= c < out.Length1 && r != i ==> out[r, c] == old(out[r, c])
    {
      var k := i * stride + j;
      var fromR := k / n;
      var fromC := k % n;
      var v := Zero;
      if fromR < m {
        v := Mul(rx[fromR, fromC], window[j]);
      }
      assert v == want[j];
      out[i, j] := v;
    }
    assert forall c :: 0 <= c < out.Length1 ==> want[c] == WindowedSample(rx, window, stride, i, c);
  }

  /** initialize_freq_and_timing_bins: frequency bin i in MHz and the centre time of window i in us. */
  method FreqAndTimingBins(samplingRate: real, samplesPerSamplingWindow: nat, fftSize: nat, numRowsSpectrogram: nat)
    returns (freqs: seq<real>, bins: seq<real>)
    requires samplingRate > 0.0 && samplesPerSamplingWindow > 0 && fftSize > 0
    ensures |freqs| == fftSize && |bins| == numRowsSpectrogram
    ensures forall i :: 0 <= i < fftSize ==> freqs[i] == FrequencyBin(samplingRate, fftSize, i)
    ensures forall i :: 0 <= i < numRowsSpectrogram ==> bins[i] == TimeBin(samplingRate, samplesPerSamplingWindow, fftSize, i)
  {
    var frequencyResolution := FrequencyResolution(samplingRate, fftSize);
    freqs := seq(fftSize, _ => 0.0);
    for i := 0 to fftSize
      invariant |freqs| == fftSize
      invariant forall k :: 0 <= k < i ==> freqs[k] == FrequencyBin(samplingRate, fftSize, k)
    {
      freqs := freqs[i := frequencyResolution * i as real];
    }
    var frequencySamplingPeriod := WindowPeriodUs(samplingRate, samplesPerSamplingWindow);
    var detectedTimeOffset := TimeOffsetUs(samplingRate, samplesPerSamplingWindow, fftSize);
    bins := seq(numRowsSpectrogram, _ => 0.0);
    for i := 0 to numRowsSpectrogram
      invariant |bins| == numRowsSpectrogram
      invariant forall k :: 0 <= k < i ==> bins[k] == TimeBin(samplingRate, samplesPerSamplingWindow, fftSize, k)
    {
      bins := bins[i := frequencySamplingPeriod * i as real + detectedTimeOffset];
    }
  }

  /** The points of the rows whose maximum is above the threshold: their time bin and peak frequency. */
  method PeaksAbove(values: seq<real>, indicies: seq<nat>, times: seq<real>, frequencies: seq<real>, threshold: real)
    returns (ts: seq<real>, fs: seq<real>)
    requires |values| == |indicies| == |times|
    requires forall i :: 0 <= i < |indicies| ==> indicies[i] < |frequencies|
    ensures var kept := Kept(values, threshold, |values|);
      && |ts| == |fs| == |kept|
      && forall k :: 0 <= k < |kept| ==> ts[k] == times[kept[k]] && fs[k] == frequencies[indicies[kept[k]]]
  {
    ts, fs := [], [];
    ghost var kept: seq<nat> := [];
    for i := 0 to |values|
      invariant kept == Kept(values, threshold, i)
      invariant |ts| == |fs| == |kept|
      invariant forall k :: 0 <= k < |kept| ==> ts[k] == times[kept[k]] && fs[k] == frequencies[indicies[kept[k]]]
    {
      if values[i] > threshold {
        ts := ts + [times[i]];
        fs := fs + [frequencies[indicies[i]]];
        kept := kept + [i];
      }
    }
  }

  /**
   * The labelling loop of compute_clusters over the detected frequencies f:
   * a[0..|f|) gets each point's run label; the result is the value the source
   * leaves in chirp, which becomes max_cluster_index.
   */
  method LabelRuns(a: array<int>, f: seq<real>, minPoints: nat) returns (chirp: int)
    requires |f| <= a.Length
    modifies a
    ensures forall k :: 0 <= k < |f| ==> a[k] == Label(f, minPoints, k)
    ensures forall k :: |f| <= k < a.Length ==> a[k] == old(a[k])
    ensures chirp == MaxClusterIndexAsWritten(f, minPoints)
  {
    chirp := 1;
    var chirpStartIdx := 0;
    var numPointsInChirp := 1;
    var numDetectedPoints := |f|;
    var i := 1;
    while i < numDetectedPoints
      invariant 1 <= i && (numDetectedPoints > 0 ==> i <= numDetectedPoints)
      invariant chirpStartIdx < i && chirpStartIdx <= numDetectedPoints && numPointsInChirp == i - chirpStartIdx
      invariant numDetectedPoints > 0 ==> IsRunStart(f, chirpStartIdx)
      invariant forall t :: chirpStartIdx < t < i && t < numDetectedPoints ==> !IsRunStart(f, t)
      invariant chirp == 1 + ValidRunsBefore(f, minPoints, chirpStartIdx)
      invariant forall k :: 0 <= k < chirpStartIdx ==> a[k] == Label(f, minPoints, k)
      invariant forall k :: numDetectedPoints <= k < a.Length ==> a[k] == old(a[k])
    {
      if f[i] - f[i - 1] > 0.0 {
        numPointsInChirp := numPointsInChirp + 1;
      } else {
        chirp := CloseRunAt(a, f, minPoints, chirpStartIdx, i, numPointsInChirp, chirp);
        chirpStartIdx := i;
        numPointsInChirp := 1;
      }
      i := i + 1;
    }
    if numDetectedPoints == 0 {
      SetValAtIndicies(a, if numPointsInChirp >= minPoints then chirp else -1, 0, 0);
    } else {
      InRun(f, chirpStartIdx, numDetectedPoints, numDetectedPoints - 1);
      var next := CloseRunAt(a, f, minPoints, chirpStartIdx, numDetectedPoints, numPointsInChirp, chirp);
    }
  }

  /**
   * One set_val_at_indicies call of compute_clusters: the run [s, e) gets
   * the current chirp id when it has enough points and -1 otherwise; the
   * result is the chirp id after it.
   */
  method CloseRunAt(a: array<int>, f: seq<real>, minPoints: nat, s: nat, e: nat, numPointsInChirp: nat, chirp: int)
    returns (next: int)
    requires s < e <= |f| <= a.Length && numPointsInChirp == e - s
    requires IsRunStart(f, s) && (e == |f| || IsRunStart(f, e))
    requires forall t :: s < t < e ==> !IsRunStart(f, t)
    requires chirp == 1 + ValidRunsBefore(f, minPoints, s)
    modifies a
    ensures forall k :: 0 <= k < a.Length ==> a[k] == if s <= k < e then Label(f, minPoints, k) else old(a[k])
    ensures next == 1 + ValidRunsBefore(f, minPoints, e)
  {
    CloseRun(f, minPoints, s, e);
    if numPointsInChirp >= minPoints {
      SetValAtIndicies(a, chirp, s, e);
      next := chirp + 1;
    } else {
      SetValAtIndicies(a, -1, s, e);
      next := chirp;
    }
  }

  /** Closing the run [s, e) at a run start e (or at the end): its points' labels and the count after it. */
  lemma CloseRun(f: seq<real>, minPoints: nat, s: nat, e: nat)
    requires s < e <= |f| && IsRunStart(f, s) && (e == |f| || IsRunStart(f, e))
    requires forall t :: s < t < e ==> !IsRunStart(f, t)
    ensures forall k :: s <= k < e ==>
      Label(f, minPoints, k) == if e - s >= minPoints then 1 + ValidRunsBefore(f, minPoints, s) else -1
    ensures ValidRunsBefore(f, minPoints, e) == ValidRunsBefore(f, minPoints, s) + (if e - s >= minPoints then 1 else 0)
  {
    forall k | s <= k < e
      ensures Label(f, minPoints, k) == if e - s >= minPoints then 1 + ValidRunsBefore(f, minPoints, s) else -1
    {
      InRun(f, s, e, k);
    }
    InRun(f, s, e, s);
    NoStartsInside(f, minPoints, s, e);
  }

  /** Under the derived sizes the zero-fill branch of the reshape is never taken. */
  lemma NoZeroFill(h: SpectrogramHandler, i: nat, j: nat)
    requires h.SizesDerived() && i < h.numRowsSpectrogram && j < h.fftSize
    ensures h.numRowsRxSignal > 0
    ensures (i * h.samplesPerSamplingWindow + j) / h.samplesPerBufferRxSignal < h.numRowsRxSignal
  {
    var k := i * h.samplesPerSamplingWindow + j;
    WindowInsideCapture(h.samplingRate, h.samplesPerBufferRxSignal, h.minRecordingTimeMs, i, j);
    Arith.DivBelow(k, h.numRowsRxSignal, h.samplesPerBufferRxSignal);
  }
}
