# Radar attack testbed core, modelled in Dafny

This project models the checkable core of an FMCW radar security testbed. The testbed has two halves.

**The C++ side** is built on a USRP software radio. It captures a victim radar's chirps and builds a spectrogram of them. From that it:
- picks peaks;
- clusters the peaks into chirps;
- tracks frame timing;
- predicts when the next victim frame starts.

It also lays the transmit chirps out in fixed-size radio buffers and schedules the attack frames.

**The Python side** drives a TI IWR1443 sensor. It does three things:
- frames the sensor's byte stream on an 8-byte magic word;
- decodes each packet's header and its type-length-value (TLV) records;
- reads the integer fields of the sensor's configuration file.

**What is modelled.** Each core file keeps its own form.
- Classes whose fields the source updates become Dafny classes. Buffers become `array`/`array2`; growing vectors and lists become `seq` fields.
- Every loop of the source is a method with invariants. It is proved against a reference function, and the reference functions carry their own lemmas.

**Number representation.**
- Sample values, times and frequencies are exact `real`s; IEEE rounding is not modelled.
- Integers are unbounded. The source's fixed widths are written out where they matter:
  - 16-bit values stored into numpy `int16` arrays wrap;
  - `2 ** k` in numpy `int64` arithmetic wraps;
  - the assumed Python environment is NumPy 1.x before 1.25, with a 64-bit default integer (see "## Left out");
  - bytes are `uint8`.

**Modules.**
- `Common`: option and result types, complex samples, bytes, little-endian words.
- `Arith`: division and modulo facts.
- `SpectrogramSpec` and `Spectrogram` cover `SpectrogramHandler.hpp`.
  - `SpectrogramSpec` holds the reference definitions: sizes, bins, argmax, threshold filter, run clustering, frame averages.
  - `Spectrogram` holds the handler class and its loops.
- `UsrpBuffers` covers `BufferHandler.cpp`.
- `Attacking` covers `AttackingSubsystem.hpp`.
- `IwrStreamer`, `IwrProcessor` and `IwrConfig` cover the three IWR1443 Python files.

**Where the code differs from a casual reading:**
- The IWR1443 header ends at byte 36 (an 8-byte magic word and seven 32-bit words). The model's cursor after the header is therefore 36.
- For a TLV record of a type other than 1, `processData` advances the cursor only past the 8-byte record header, never past the payload. The model does the same.
- `load_data_into_usrp_buffer` always wraps back to the start of the source data. It has no mode that stops when the data runs out.
- `compute_clusters` leaves `max_cluster_index` one too high when the last run is too short (see Findings).

## Model

| member | source | states |
|---|---|---|
| SpectrogramSpec.SizesSpec | FMCW_radar_uhd/src/sensing_subsystem/SpectrogramHandler.hpp:194-237 | The window is ceil(rate·period) samples, with the period 0.5 µs above 500 MS/s and 2 µs otherwise. The FFT size is the largest power of two not above the window. The capture is the fewest rows that cover the minimum recording time. The spectrogram has floor(samples/window) rows and uses no more samples than the capture holds (less than one window short). |
| SpectrogramSpec.FloorPow2Spec | FMCW_radar_uhd/src/sensing_subsystem/SpectrogramHandler.hpp:213-216 | pow(2, floor(log2 n)) is a power of two p with p ≤ n < 2p. |
| SpectrogramSpec.WindowsInSpec | FMCW_radar_uhd/src/sensing_subsystem/SpectrogramHandler.hpp:231-233 | The whole windows that fit in the capture: rows·window ≤ samples < rows·window + window. |
| SpectrogramSpec.WindowSamplesSpec | FMCW_radar_uhd/src/sensing_subsystem/SpectrogramHandler.hpp:200-211 | The window is at least one sample and is the ceiling of rate·period. |
| SpectrogramSpec.CaptureRowsSpec | FMCW_radar_uhd/src/sensing_subsystem/SpectrogramHandler.hpp:223-229 | The capture rows cover the minimum recording time, and one row fewer would not. |
| SpectrogramSpec.RowsCoverTime | FMCW_radar_uhd/src/sensing_subsystem/SpectrogramHandler.hpp:224-226 | ceil(t / (spb/rate)) rows of spb samples last at least t, and one row fewer lasts less. |
| SpectrogramSpec.WindowInsideCapture | FMCW_radar_uhd/src/sensing_subsystem/SpectrogramHandler.hpp:406-434 | Every sample a spectrogram row reads lies inside the capture. |
| SpectrogramSpec.BinsIncrease | FMCW_radar_uhd/src/sensing_subsystem/SpectrogramHandler.hpp:295-325 | Frequency bins and time bins both increase strictly with their index. |
| SpectrogramSpec.TimeBinIsWindowCentre | FMCW_radar_uhd/src/sensing_subsystem/SpectrogramHandler.hpp:307-324 | The time bin of row i is the time, in µs, of sample i·window + fft/2, the centre of that row's window. |
| SpectrogramSpec.DistanceDelayUs | FMCW_radar_uhd/src/sensing_subsystem/SpectrogramHandler.hpp:380 | The delay times the speed of light equals the distance in µm (distance·10^6). |
| SpectrogramSpec.FirstArgMaxSpec | FMCW_radar_uhd/src/sensing_subsystem/SpectrogramHandler.hpp:518-532 | No element exceeds the one at the reference argmax, and every earlier element is strictly smaller. |
| SpectrogramSpec.ArgMaxUnique | FMCW_radar_uhd/src/sensing_subsystem/SpectrogramHandler.hpp:518-532 | Any value/index pair with those two properties is the reference maximum and its first index. |
| SpectrogramSpec.KeptSpec | FMCW_radar_uhd/src/sensing_subsystem/SpectrogramHandler.hpp:570-578 | The filter keeps exactly the rows whose maximum is above the threshold, each once, in increasing row order. |
| SpectrogramSpec.StrongestRowKept | FMCW_radar_uhd/src/sensing_subsystem/SpectrogramHandler.hpp:561-578 | With a positive threshold the strongest row survives, so at least one point is detected. |
| SpectrogramSpec.RunEndOfStart | FMCW_radar_uhd/src/sensing_subsystem/SpectrogramHandler.hpp:598-619 | The run a point belongs to ends where the run of its start ends. |
| SpectrogramSpec.InRun | FMCW_radar_uhd/src/sensing_subsystem/SpectrogramHandler.hpp:598-619 | Every position between a run start and the next start belongs to that run. |
| SpectrogramSpec.SameRunSameLabel | FMCW_radar_uhd/src/sensing_subsystem/SpectrogramHandler.hpp:598-628 | All points of one maximal strictly increasing run get the same label. |
| SpectrogramSpec.ValidRunsMonotone | FMCW_radar_uhd/src/sensing_subsystem/SpectrogramHandler.hpp:605-610 | The number of valid runs seen so far never decreases. |
| SpectrogramSpec.NoStartsInside | FMCW_radar_uhd/src/sensing_subsystem/SpectrogramHandler.hpp:598-603 | No run starts strictly inside a run, so the valid-run count does not change across it. |
| SpectrogramSpec.LabelsInDiscoveryOrder | FMCW_radar_uhd/src/sensing_subsystem/SpectrogramHandler.hpp:605-610 | A point of a later valid run has a strictly larger id: ids are handed out in discovery order. |
| SpectrogramSpec.LabelRange | FMCW_radar_uhd/src/sensing_subsystem/SpectrogramHandler.hpp:605-628 | Every label is -1 or an id from 1 to the number of valid runs. |
| SpectrogramSpec.EveryClusterUsed | FMCW_radar_uhd/src/sensing_subsystem/SpectrogramHandler.hpp:605-628 | Every id from 1 to the number of valid runs labels at least one point. |
| SpectrogramSpec.MaxClusterIndexOvercount | FMCW_radar_uhd/src/sensing_subsystem/SpectrogramHandler.hpp:589-631 | max_cluster_index equals the number of valid runs, plus one exactly when there are no points or the final run is too short. |
| SpectrogramSpec.MaxClusterIndexCounterexample | FMCW_radar_uhd/src/sensing_subsystem/SpectrogramHandler.hpp:622-631 | Take frequencies [1, 0] and a minimum of two points. max_cluster_index is 1, no valid run exists, and both points are labelled -1. |
| SpectrogramSpec.MeanOfEqual | FMCW_radar_uhd/src/sensing_subsystem/SpectrogramHandler.hpp:692-699 | Equal slopes average to that slope. |
| SpectrogramSpec.SumOfEqual | FMCW_radar_uhd/src/sensing_subsystem/SpectrogramHandler.hpp:693-697 | The slope sum of n equal values is n times that value. |
| SpectrogramSpec.MeanSpacingOfArithmetic | FMCW_radar_uhd/src/sensing_subsystem/SpectrogramHandler.hpp:701-705 | Evenly spaced intercepts give their spacing as the mean chirp duration. |
| SpectrogramSpec.PredictionOfPeriodic | FMCW_radar_uhd/src/sensing_subsystem/SpectrogramHandler.hpp:725-734 | Periodic frame starts predict the next period's start exactly. |
| SpectrogramSpec.WeightedSumOfEqual | FMCW_radar_uhd/src/sensing_subsystem/SpectrogramHandler.hpp:741-748 | When every frame has the same value, the weighted sum is that value times the weight total. |
| SpectrogramSpec.WeightTotalPositive | FMCW_radar_uhd/src/sensing_subsystem/SpectrogramHandler.hpp:743-749 | Frames with at least two chirps give a chirp-weight total of at least the number of frames, so the division is defined. |
| SpectrogramSpec.WeightedAverageOfEqual | FMCW_radar_uhd/src/sensing_subsystem/SpectrogramHandler.hpp:741-759 | Frames that agree on their average give that average across frames. |
| Spectrogram.SpectrogramHandler.constructor | FMCW_radar_uhd/src/sensing_subsystem/SpectrogramHandler.hpp:129-142 | For a complete configuration the handler is fully initialised: <br>• the sizes are the derived ones; <br>• the buffers are fresh and shaped; <br>• the Hann window holds the given values; <br>• the bins are initialised; <br>• the point lists are empty; <br>• the counters are zero. |
| Spectrogram.FreqAndTimingBins | FMCW_radar_uhd/src/sensing_subsystem/SpectrogramHandler.hpp:295-325 | Frequency bin i is i·rate·10^-6/fft MHz. Time bin i is i window periods plus half an FFT, in µs. |
| Spectrogram.SpectrogramHandler.SetDetectionStartTimeUs | FMCW_radar_uhd/src/sensing_subsystem/SpectrogramHandler.hpp:379-382 | The detection start time becomes the start time minus the victim's propagation delay. |
| Spectrogram.SpectrogramHandler.LoadAndPrepareForFft | FMCW_radar_uhd/src/sensing_subsystem/SpectrogramHandler.hpp:403-437 | Output cell (i, j) holds rx[k/n][k%n]·hann[j] with k = i·window + j, or 0 once k/n passes the last row. |
| Spectrogram.FillWindowedRow | FMCW_radar_uhd/src/sensing_subsystem/SpectrogramHandler.hpp:418-434 | One pass of the outer loop writes row i as above and leaves every other row unchanged. |
| Spectrogram.NoZeroFill | FMCW_radar_uhd/src/sensing_subsystem/SpectrogramHandler.hpp:421-430 | Under the derived sizes the capture has rows and the zero-fill branch is never taken. |
| Spectrogram.SpectrogramHandler.ComputeMaxVal | FMCW_radar_uhd/src/sensing_subsystem/SpectrogramHandler.hpp:518-532 | Returns v == signal[idx] with v ≥ every element, and idx the first index holding v (the comparison is strict). |
| Spectrogram.SpectrogramHandler.RowPeak | FMCW_radar_uhd/src/sensing_subsystem/SpectrogramHandler.hpp:555-559 | One call of compute_max_val on a row returns the reference maximum and first argmax. |
| Spectrogram.SpectrogramHandler.RecordRowMaxima | FMCW_radar_uhd/src/sensing_subsystem/SpectrogramHandler.hpp:545-566 | Every row's maximum and first argmax are stored, and the running absolute maximum is the maximum of the stored values. |
| Spectrogram.SpectrogramHandler.CollectPeaks | FMCW_radar_uhd/src/sensing_subsystem/SpectrogramHandler.hpp:568-578 | The detected lists are, in row order, (times[i], frequencies[idx_i]) for exactly the rows whose maximum is above the threshold. |
| Spectrogram.PeaksAbove | FMCW_radar_uhd/src/sensing_subsystem/SpectrogramHandler.hpp:570-578 | The second loop of peak detection yields exactly the kept rows' time bins and peak frequencies, in order. |
| Spectrogram.SpectrogramHandler.DetectPeaksInSpectrogram | FMCW_radar_uhd/src/sensing_subsystem/SpectrogramHandler.hpp:539-580 | Every row's maximum and first argmax are stored. The detected points are exactly the rows above (global max − threshold), in order. |
| Spectrogram.SetValAtIndicies | FMCW_radar_uhd/src/sensing_subsystem/SpectrogramHandler.hpp:606-627 | set_val_at_indicies(v, a, b) sets [a, b) to v and nothing else. |
| Spectrogram.CloseRun | FMCW_radar_uhd/src/sensing_subsystem/SpectrogramHandler.hpp:604-617 | Closing a run [s, e) labels its points 1 + (valid runs before s) when it has enough points and -1 otherwise. The valid-run count grows by one exactly for a valid run. |
| Spectrogram.CloseRunAt | FMCW_radar_uhd/src/sensing_subsystem/SpectrogramHandler.hpp:604-617 | One set_val_at_indicies call with the current chirp id: writes the run's labels and returns the next id. |
| Spectrogram.LabelRuns | FMCW_radar_uhd/src/sensing_subsystem/SpectrogramHandler.hpp:589-631 | Each detected point gets its run's label and later slots are untouched. The final chirp value is max_cluster_index as the source leaves it. |
| Spectrogram.SpectrogramHandler.ComputeClusters | FMCW_radar_uhd/src/sensing_subsystem/SpectrogramHandler.hpp:586-639 | Each point is labelled by its maximal strictly increasing run: 1, 2, … in discovery order for runs of at least min_points_per_chirp, −1 otherwise. Slots from the number of points to the spectrogram rows are 0. max_cluster_index is as written. |
| Spectrogram.ChirpAverages | FMCW_radar_uhd/src/sensing_subsystem/SpectrogramHandler.hpp:690-705 | The average slope is the mean of the slopes. The chirp duration is (last − first intercept)/(count − 1). |
| Spectrogram.SpectrogramHandler.ComputeVictimParameters | FMCW_radar_uhd/src/sensing_subsystem/SpectrogramHandler.hpp:687-760 | The frame counter goes up by exactly 1, and only row frames−1 of captured_frames changes. That row gets the chirp count, mean slope, mean chirp duration and first intercept. The duration and prediction are zero for the first frame and otherwise come from the start times. The cross-frame slope and duration are chirp-weighted means. |
| Spectrogram.SpectrogramHandler.RecordFrame | FMCW_radar_uhd/src/sensing_subsystem/SpectrogramHandler.hpp:707-759 | The frame part of the above: increments the counter, stores row frames−1 with nothing else changed, and updates the cross-frame averages. |
| Spectrogram.SpectrogramHandler.StoreFrame | FMCW_radar_uhd/src/sensing_subsystem/SpectrogramHandler.hpp:710-739 | Row r holds the count, slope, duration and start. For r = 0 the frame duration and prediction are 0. Otherwise: <br>• the frame duration is start − previous start; <br>• the mean frame duration is (start − first start)/r; <br>• the prediction is start plus that mean. <br>Other rows are unchanged. |
| Spectrogram.SpectrogramHandler.UpdateFrameAverages | FMCW_radar_uhd/src/sensing_subsystem/SpectrogramHandler.hpp:741-759 | The cross-frame slope and duration become the chirp-weighted means of columns 2 and 3. |
| Spectrogram.SpectrogramHandler.FrameWeightedAverage | FMCW_radar_uhd/src/sensing_subsystem/SpectrogramHandler.hpp:742-749 | One cross-frame loop: Σ value·(count−1) / Σ (count−1) over the captured frames. |
| UsrpBuffers.ComputeUsrpBufferSettings | FMCW_radar_uhd/src/BufferHandler.cpp:253-275 | rows·spb − excess == chirps·samples_per_chirp in all three branches. The excess is 0 when spb equals the chirp length or divides the total; otherwise 0 < excess < spb and (rows − 1)·spb < total. |
| UsrpBuffers.RepeatAt | FMCW_radar_uhd/src/BufferHandler.cpp:58-72 | Position p of n back-to-back chirps is chirp[p mod length]. |
| UsrpBuffers.RepeatIsCyclic | FMCW_radar_uhd/src/BufferHandler.cpp:58-72 | n back-to-back chirps are the chirp read cyclically for n·length samples. |
| UsrpBuffers.LoadDataIntoUsrpBuffer | FMCW_radar_uhd/src/BufferHandler.cpp:286-325 | Every row-major position p < rows·spb − excess holds data[p mod \|data\|]. The last excess cells keep their contents, and data is not modified. |
| UsrpBuffers.SaveUsrpBufferToFile | FMCW_radar_uhd/src/BufferHandler.cpp:337-359 | Writes nothing when the stream is not open. Otherwise writes rows·spb − excess samples in row-major order: all rows but the last in full, then the last row's first spb − excess samples. |
| UsrpBuffers.WriteRow | FMCW_radar_uhd/src/BufferHandler.cpp:349-355 | Writing one row's first count samples appends them in order. |
| UsrpBuffers.BufferHandler.InitTxBuffer | FMCW_radar_uhd/src/BufferHandler.cpp:55-80 | The tx sizes are compute_usrp_buffer_settings' result. The fresh tx buffer holds exactly num_chirps back-to-back chirps, then zeros. |
| UsrpBuffers.BufferHandler.constructor | FMCW_radar_uhd/src/BufferHandler.cpp:5-23 | The configuration is stored, then a freshly allocated tx buffer is built as above. |
| UsrpBuffers.SavedTxBufferIsChirps | FMCW_radar_uhd/src/BufferHandler.cpp:55-80 | What is saved from the tx buffer is exactly num_chirps back-to-back chirps. |
| Attacking.MissingFieldMessages | FMCW_radar_uhd/src/attacking_subsystem/AttackingSubsystem.hpp:86-132 | The logged messages are empty exactly when all seven entries are present, and there are at most seven. |
| Attacking.NoteMissing | FMCW_radar_uhd/src/attacking_subsystem/AttackingSubsystem.hpp:88-91 | One check: a missing entry logs its message and clears the flag; a present one changes nothing. |
| Attacking.AttackingSubsystem.CheckConfig | FMCW_radar_uhd/src/attacking_subsystem/AttackingSubsystem.hpp:86-132 | All seven entries are inspected without short-circuit, with one message per missing entry in order. The result is false iff at least one entry is null. |
| Attacking.AttackingSubsystem.constructor | FMCW_radar_uhd/src/attacking_subsystem/AttackingSubsystem.hpp:63-76 | Parameters are initialised exactly when check_config passes. The attack signal is loaded exactly when check_config passes and enabled is true. |
| Attacking.AttackingSubsystem.InitializeAttackSubsystemParameters | FMCW_radar_uhd/src/attacking_subsystem/AttackingSubsystem.hpp:138-154 | Each parameter takes its configuration entry. |
| Attacking.AttackingSubsystem.ComputeFrameStartTimes | FMCW_radar_uhd/src/attacking_subsystem/AttackingSubsystem.hpp:173-190 | attack_start_time_ms = desired − offset_us·10^-3. The schedule is replaced by exactly num_attack_frames entries, with entry i = start_ms·10^-3 + period_ms·10^-3·i. |
| Attacking.ScheduleSpacing | FMCW_radar_uhd/src/attacking_subsystem/AttackingSubsystem.hpp:181-188 | Consecutive start times differ by period_ms·10^-3, so the schedule strictly increases when the period is positive. |
| Common.LE16RoundTrip | python_to_control_radar/IWR1443_Processor.py:52-56 | b0 + 256·b1 inverts the 16-bit little-endian encoding. |
| Common.LE32RoundTrip | python_to_control_radar/IWR1443_Processor.py:15-25 | b0 + 2^8 b1 + 2^16 b2 + 2^24 b3 inverts the 32-bit little-endian encoding. |
| IwrStreamer.FirstMatchFrom | python_to_control_radar/IWR1443_Streamer.py:41-48 | The first position from a start index at which all 8 bytes equal [2,1,4,3,6,5,8,7], or none. |
| IwrStreamer.Shifted | python_to_control_radar/IWR1443_Streamer.py:55-56 | Bytes [s, len) move to the front in order and the tail is zero. |
| IwrStreamer.AppendedSpec | python_to_control_radar/IWR1443_Streamer.py:28-35 | When len + count < 2^16 the bytes land at [len, len+count) and len grows by count; otherwise the new data is dropped. Either way the zero tail is kept. |
| IwrStreamer.ResyncedSpec | python_to_control_radar/IWR1443_Streamer.py:38-57 | Resynchronisation keeps the zero tail and never grows len. When it moves data, the buffer starts with the magic word and holds the tail of the old data. A buffer already aligned at 0 is left alone. |
| IwrStreamer.MatchInsideData | python_to_control_radar/IWR1443_Streamer.py:46-54 | Under the zero tail, a magic word lies wholly inside the data. |
| IwrStreamer.FirstIsLeast | python_to_control_radar/IWR1443_Streamer.py:44-54 | The first collected start index is the first match in the buffer. |
| IwrStreamer.Streamer.constructor | python_to_control_radar/IWR1443_Streamer.py:10-12 | A 2^16-byte zero buffer with length 0. |
| IwrStreamer.Streamer.AddToBuffer | python_to_control_radar/IWR1443_Streamer.py:27-57 | The new state is the append step followed by the resynchronisation step, and the zero-tail invariant is kept. |
| IwrStreamer.Streamer.AppendStep | python_to_control_radar/IWR1443_Streamer.py:32-35 | The append step, keeping the invariant. |
| IwrStreamer.Streamer.CopyIn | python_to_control_radar/IWR1443_Streamer.py:34 | The slice assignment writes byteVec at [len, len+count) and nothing else. |
| IwrStreamer.Streamer.ResyncStep | python_to_control_radar/IWR1443_Streamer.py:37-57 | Resynchronisation runs only when len > 16 and moves data only when the first match s has 0 < s < len. |
| IwrStreamer.Streamer.FindMagicWord | python_to_control_radar/IWR1443_Streamer.py:41-48 | Collects every matching position, each a match, in increasing order. |
| IwrStreamer.Streamer.ShiftToFront | python_to_control_radar/IWR1443_Streamer.py:55-56 | The two slice assignments move [s, len) to the front and zero everything after. |
| IwrStreamer.Streamer.ExtractNextPacket | python_to_control_radar/IWR1443_Streamer.py:59-74 | totalPacketLen is the little-endian u32 at bytes 12..15. When len ≥ totalPacketLen and len ≠ 0, and only then, the method shifts the rest to the front, zeroes the tail, subtracts totalPacketLen from len and returns a packet of that length. Otherwise it returns None and changes nothing. |
| IwrStreamer.Streamer.ReadFromFile | python_to_control_radar/IWR1443_Streamer.py:18-19 | Delegates to extractNextPacket, with the same new state. A packet is returned exactly when len ≥ the announced length and len ≠ 0. The rest of the buffer is then shifted to the front, len drops by that length, and the packet is the buffer's new front of that length. Otherwise it returns None and changes nothing. |
| IwrProcessor.ToInt16 | python_to_control_radar/IWR1443_Processor.py:62-83 | A 16-bit value stored in an int16 array is itself or itself − 2^16, within the signed range. |
| IwrProcessor.ParseHeader | python_to_control_radar/IWR1443_Processor.py:20-36 | The header fails exactly when the packet is shorter than 36 bytes. |
| IwrProcessor.ParseDetectedPoints | python_to_control_radar/IWR1443_Processor.py:53-83 | On success the cursor ends 4 + 12·numObj bytes on, inside the packet. |
| IwrProcessor.ProcessData | python_to_control_radar/IWR1443_Processor.py:10-97 | The cursor walk decodes the header, the numTLVs records and the objects exactly as the reference decoder does, with the same errors. |
| IwrProcessor.ReadDetectedPoints | python_to_control_radar/IWR1443_Processor.py:53-83 | The type-1 branch reads numObj and 2^(Q word) as LE u16, then six LE u16 words per object into int16 arrays. The cursor advances 4 + 12·numObj. |
| IwrProcessor.StoreObject | python_to_control_radar/IWR1443_Processor.py:71-83 | One object: the six fields, in order, land in their six arrays. |
| IwrProcessor.StoreField | python_to_control_radar/IWR1443_Processor.py:72-73 | One field read: the word 12·objectNum + 2·f bytes on. |
| IwrProcessor.FieldReadAll | python_to_control_radar/IWR1443_Processor.py:69-83 | Once every object is read, an array equals the reference field sequence. |
| IwrProcessor.HeaderRoundTrip | python_to_control_radar/IWR1443_Processor.py:20-36 | The seven header fields, LE u32 at offsets 8, 12, …, 32, come back from their encoding whatever follows. |
| IwrProcessor.DetectedPointsRecord | python_to_control_radar/IWR1443_Processor.py:39-83 | An encoded detected-points record at the cursor is consumed whole and becomes the current detObj. |
| IwrProcessor.RecordHeaderBytes | python_to_control_radar/IWR1443_Processor.py:45-59 | A record's type word reads as 1, and its count and Q exponent read back. |
| IwrProcessor.PayloadOfEncoded | python_to_control_radar/IWR1443_Processor.py:56-83 | The payload decodes to the encoded points, wrapped to int16. |
| IwrProcessor.ObjectFieldOfEncoded | python_to_control_radar/IWR1443_Processor.py:69-83 | Field f of encoded objects decodes to those objects' word f, wrapped to int16. |
| IwrProcessor.PacketRoundTrip | python_to_control_radar/IWR1443_Processor.py:10-97 | A header announcing one record, followed by one detected-points record, decodes to exactly those points. |
| IwrProcessor.LastRecordWins | python_to_control_radar/IWR1443_Processor.py:39-95 | With two detected-points records the second overwrites the first. |
| IwrProcessor.TwoRecords | python_to_control_radar/IWR1443_Processor.py:39-95 | The same statement over any packet whose header parses and whose two records are laid out after it. |
| IwrProcessor.OtherRecordsOnly | python_to_control_radar/IWR1443_Processor.py:45-53 | Records of other types advance the cursor by 8 each and leave detObj unchanged; with none of type 1, detObj stays unbound. |
| IwrConfig.RStripCrLf | python_to_control_radar/IWR1443_Config.py:25 | rstrip('\r\n') removes exactly the trailing CR/LF characters. |
| IwrConfig.Split | python_to_control_radar/IWR1443_Config.py:29 | split(" ") yields at least one token, none containing a space. |
| IwrConfig.JoinSplit | python_to_control_radar/IWR1443_Config.py:29 | Joining the tokens with single spaces gives the line back. |
| IwrConfig.SplitJoin | python_to_control_radar/IWR1443_Config.py:29 | Splitting a space-joined list of space-free tokens gives the tokens back. |
| IwrConfig.ContainsTextSpec | python_to_control_radar/IWR1443_Config.py:36-50 | The substring test `in` holds exactly when the pattern occurs at some position. |
| IwrConfig.ParseInt | python_to_control_radar/IWR1443_Config.py:38-55 | int() succeeds exactly on an optional sign followed by digits. |
| IwrConfig.ParseIntText | python_to_control_radar/IWR1443_Config.py:38-55 | int() of an integer's decimal text is that integer. |
| IwrConfig.RoundUpPow2 | python_to_control_radar/IWR1443_Config.py:42-45 | The doubling loop gives a power of two ≥ numAdcSamples whose half is below it (or 1). |
| IwrConfig.RoundedUp | python_to_control_radar/IWR1443_Config.py:42-45 | The smallest power of two ≥ n, or 1 when n ≤ 1. |
| IwrConfig.RoundUpUnique | python_to_control_radar/IWR1443_Config.py:42-45 | That power of two is unique. |
| IwrConfig.ParseProfileLine | python_to_control_radar/IWR1443_Config.py:36-47 | The profileCfg branch with its doubling loop gives the reference profile, with the same index and value errors. |
| IwrConfig.ParseConfigFile | python_to_control_radar/IWR1443_Config.py:21-66 | The loop over lines gives the reference result. A profile line is one whose token 0 contains "profileCfg"; otherwise a frame line, one containing "frameCfg". The first exception ends the parse, and an unbound variable becomes a name error. With both lines bound, a zero numAdcSamples or a zero chirp count is a division by zero. |
| IwrConfig.FoldKeepsRounded | python_to_control_radar/IWR1443_Config.py:26-55 | Every profile the loop binds holds the round-up of its own numAdcSamples as numAdcSamplesRoundTo2. |
| IwrConfig.ZeroCountIsZeroDivision | python_to_control_radar/IWR1443_Config.py:57-64 | With a profile and a frame bound, the parse fails if and only if numAdcSamples or numChirpsPerFrame is zero, and then with ZeroDivisionError. Otherwise numDopplerBins is nonzero and numRangeBins ≥ 1. |
| IwrConfig.FoldAppend | python_to_control_radar/IWR1443_Config.py:26-55 | Processing lines one after another is processing their concatenation. |
| IwrConfig.LaterFrameLineWins | python_to_control_radar/IWR1443_Config.py:50-55 | A later frame line overwrites the frame values. |
| IwrConfig.LaterProfileLineWins | python_to_control_radar/IWR1443_Config.py:36-47 | A later profile line overwrites the profile values. |
| IwrConfig.OtherLineIgnored | python_to_control_radar/IWR1443_Config.py:36-50 | A line that is neither kind changes nothing. |
| IwrConfig.MissingLineIsNameError | python_to_control_radar/IWR1443_Config.py:57-59 | Without both a profile and a frame line, the derived entries raise a name error. |
| IwrConfig.ProfileLineParses | python_to_control_radar/IWR1443_Config.py:36-47 | A profile line takes idleTime, numAdcSamples and digOutSampleRate from tokens 3, 10 and 11, and rounds numAdcSamples up. |
| IwrConfig.FrameLineParses | python_to_control_radar/IWR1443_Config.py:50-55 | A frame line takes chirpStartIdx, chirpEndIdx, numLoops, numFrames and framePeriodicity from tokens 1–5. |
| IwrConfig.TwoLineConfig | python_to_control_radar/IWR1443_Config.py:21-64 | A file of one profile line and one frame line gives a division-by-zero error when adc = 0 or (end − start + 1)·loops = 0. Otherwise it gives the following: <br>• numDopplerBins = (end − start + 1)·loops / 2; <br>• numRangeBins = the rounded-up ADC sample count. |
| IwrConfig.TwoLines | python_to_control_radar/IWR1443_Config.py:21-64 | The same for any two lines that split into those tokens, including the division-by-zero case. |

## Left out

- Files, the serial port, the JSON configuration reader, console logging and the GNU Radio GUI are outside the model. File contents (the tx chirp, the config lines) are parameters.
- The USRP hardware layer, the threads, and the predictive-schedule bridge between threads are not modelled: they are hardware and concurrency.
- The FFT (`compute_ffts`), the `10·log10` of the spectrogram, the cosine of the Hann window, and the least-squares fit (`compute_linear_model`) are not modelled. These are foreign or floating-point numerics. The spectrogram values, the window values and the fitted slopes and intercepts are inputs.
- `compute_ffts_multi_threaded` is not modelled: it is concurrency.
- EnergyDetector is not modelled: its power computation reads an uninitialised sum.
- The storage layer (the `Buffer_1D`/`Buffer_2D` library) is not part of this model. Its `set_val_at_indicies` is modelled by `Spectrogram.SetValAtIndicies`, which fills the half-open range.
- Spectrogram.SpectrogramHandler.ComputeVictimParameters: requires at least two chirps, and a row of captured_frames still free. The source divides by count − 1 and by the chirp-weight total, and writes past the table unguarded.
- Spectrogram.SpectrogramHandler.constructor: models only a configuration with every key present; the Hann window's values are given.
- Spectrogram.SpectrogramHandler.LoadAndPrepareForFft: states the cells of the output rows only; `rx_buffer` and the window sit in separate arrays it does not modify.
- UsrpBuffers.LoadDataIntoUsrpBuffer: requires a non-empty source, a non-empty buffer and excess ≤ spb. The source's iterator walk is undefined otherwise.
- UsrpBuffers.BufferHandler.constructor: models the tx half of `init_BufferHandler`. The rx buffer setup depends on an open output file.
- BufferHandler's `load_data_from_file` and the preview printers are not modelled: they are file and console I/O.
- Attacking.AttackingSubsystem.constructor: the attack signal's file load is a flag. A failed check leaves the C++ members uninitialised; the model gives them fixed values.
- The `uhd::time_spec_t` split of a start time into whole and fractional seconds is not modelled; start times are exact reals.
- IwrProcessor.DecodePacket and IwrProcessor.ProcessData return the raw `int16` arrays and `2**Q` from the decode. The floating-point corrections after the object loop are not applied:
  - the range scale;
  - the doppler index shift by 65535;
  - the x/y/z division by the Q format.
- IwrProcessor.ProcessData: `configParameters` and the `print` of the TLV length are dropped.
- IwrStreamer.Streamer.ExtractNextPacket: the source returns a numpy view that the shift then overwrites. The model returns the buffer's new front at return time, of the announced length, and claims nothing about the old prefix.
- IwrStreamer: `loadFile` and `readRealtime` are not modelled: they are file and serial reads.
- IwrConfig.ParseProfile: tokens 2, 5 and 8 go through `float()`, which the model does not parse. A malformed float there raises ValueError in the source but not in the model. The formulas that use them (range resolution, maximum range, velocity) are floating point and left out.
- IwrConfig.ParseInt: accepts an optional sign and ASCII digits only. It does not model the surrounding whitespace or digit-group underscores that Python's `int()` also accepts.
- `IwrConfig`: `sendConfigSerial` is serial I/O. `translateFromJSON` has no body.
- IwrConfig.ParseConfigFile: only the integer divisors of the derived entries are modelled. A zero from the float tokens also raises ZeroDivisionError in the source but not in the model: freqSlopeConst = 0, startFreq = 0, or idleTime + rampEndTime = 0. An infinite float token turns a zero divisor into NaN instead of an exception; the model still reports ZeroDivisionError. An integer too large to convert to a float raises OverflowError in the source; the model has no such case.
- IwrStreamer, IwrProcessor: the model assumes NumPy 1.x before 1.25 on a platform whose default integer is 64-bit. Other environments are not modelled:
  - Where the default integer is 32-bit, as on Windows with NumPy 1.x, the `np.matmul` word decode works in `int32`. A u32 whose top byte is ≥ 128 then decodes as negative, and `2 ** Q` wraps at 2^32.
  - From NumPy 1.25 on, comparing a window cut short by the buffer end with the magic word raises ValueError. The model's `IwrStreamer.MatchAt` treats it as no match.
  - Under NumPy 2 promotion rules, subtracting 65535 from an `int16` array raises OverflowError. That correction is outside the model anyway (see IwrProcessor.ProcessData above).
- UsrpBuffers.ComputeUsrpBufferSettings: the product desired_num_chirps · required_samples_per_chirp is unbounded here; in the source it is a `size_t` product that wraps modulo 2^64. The requires excludes samples_per_buff = 0 with a different chirp length, where the source's modulo is by zero and undefined.

## Findings

| source | as written | input that shows it | evidently intended | confidence | as-written member | corrected member |
|---|---|---|---|---|---|---|
| FMCW_radar_uhd/src/sensing_subsystem/SpectrogramHandler.hpp:622-631 | `max_cluster_index = chirp` after the last run. `chirp` is incremented only for valid runs closed inside the loop, so it is 1 + (valid runs before the final run). | Detected frequencies [1.0, 0.0] with min_points_per_chirp = 2. Both runs are too short and both points get −1, yet max_cluster_index is 1. `compute_linear_model` then fits cluster 1 from zero points. The same happens with no detected points. | max_cluster_index is the number of valid runs, so that ids 1..max_cluster_index are exactly the labels in use. | not executed | SpectrogramSpec.MaxClusterIndexCounterexample | SpectrogramSpec.ValidClusterCount |

`SpectrogramSpec.MaxClusterIndexAsWritten` is the value the source computes. `Spectrogram.SpectrogramHandler.ComputeClusters` leaves it in `maxClusterIndex`, as the source does. `SpectrogramSpec.MaxClusterIndexOvercount` proves it exceeds the corrected count by one exactly when there are no points or the final run is too short. The corrected count is `SpectrogramSpec.ValidClusterCount`. Two lemmas prove it is the intended bound:
- `SpectrogramSpec.LabelRange`: every label is −1 or in 1..count;
- `SpectrogramSpec.EveryClusterUsed`: every id in 1..count is used.
