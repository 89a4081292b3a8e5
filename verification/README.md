# directionFinder_backend in Dafny

A Dafny model of the data-handling core of `directionFinder_backend`. This is
the Python 2 host software for a ROACH-based radio direction finder. An FPGA
correlates the signals of an antenna array. The host does the following:

- drives the FPGA's control register;
- reads the raw snapshot blocks and decodes them into integer samples;
- splits the time-domain snapshot into per-antenna windows;
- assembles each baseline's cross-spectrum and calibrates its phase;
- finds the strongest frequency bin and reads the phase there;
- compares the vector of measured phase differences with the expected vector
  (the array manifold) over a grid of 1000 angles of arrival, and picks the
  closest angle.

The model is one Dafny module per source class, plus three support modules:

| module | models |
|---|---|
| `ControlRegister` | `ControlRegister`: the host copy of the control word and every word written to the device, as an append-only trace |
| `Bits` | Python's `&`, `|`, `~` and `<<` on unbounded non-negative integers, bit by bit |
| `Snapshot` | `Snapshot.unpack_signal`: `np.int8` and big-endian `'>i8'` two's-complement decoding, and the complex view |
| `Correlator` | `Correlator`: baseline lists, the channel dictionary, time-domain de-interleaving, the arm/trigger/fetch order of `fetch_combinations`, and the zero-padded valid-mode cross-correlation with its time axis |
| `Correlation` | `Correlation`: the interleaved spectrum, the frequency axis, both phase calibrations, `strongest_frequency` and `phase_at_freq` |
| `AntennaArray` | `AntennaArray`: the iterator protocol, pair enumeration, the per-pair phase-difference vector and the circular layouts |
| `DirectionFinder` | `DirectionFinder`: the angle grid, the per-frequency manifold cache and the seeded circular search |
| `SignalGeneratorCorrelation` | the simulated channel and its `bin_at_freq` lookup over an axis that includes the endpoint |
| `Pairs` | `itertools.combinations(range(n), 2)` |
| `NumPy` | `np.linspace`, Python 2 `round`, `int()` of a float, negative indexing, `np.searchsorted`, first-occurrence `np.argmin` / `np.argmax` |
| `Wrappers` | `Result` and `Option`; each Python exception the code can raise is one `Error` constructor |

Objects with mutable attributes are immutable datatypes here. A method that
updates an object is a function that returns the updated value. Every
exception the code raises is a `Failure`.

Floating-point values are exact reals, and `np.pi` is the float64 value
written out. An infinite or NaN quotient only matters here where it reaches
`int()`, which raises: OverflowError for an infinite value, ValueError for
NaN.

Anything that touches the hardware or uses trigonometry becomes a parameter:

- register reads and snapshot bytes;
- the complex rotation `z * conj(exp(1j*phase))` and `np.angle`;
- an antenna's phase, `Antenna.rotated` and the `atan2` wrap;
- the manifold vector at an angle and the distance between two vectors.

Where the code and its documentation disagree, the model follows the code:

- **Control register bit layout.** The docstring puts ADC select at bits 4:5
  and the shift schedule at 6:18. The code pulses bit 4 as impulse arm and
  writes the schedule at bits 5..16 (`0xFFF << 5`). The model uses the code's
  layout.
- **Phase difference sign.** `phase_difference_between_two_antennas_at_angle`
  says it returns B's phase minus A's. It actually computes A minus B.
  `AntennaArray.PhaseDifferenceSign` states the code's sign.
- **Schedule masking.** `set_shift_schedule` does not mask the schedule. A
  schedule of 2^12 or more spills above bit 16, and
  `ControlRegister.ShiftScheduleOverflowsField` proves this.

## Model

| member | source | states |
|---|---|---|
| ControlRegister.Write | directionFinder_backend/control_register.py:20-22 | a write sends the host copy: the trace grows by one word, earlier writes are kept, and the device's last word is the host copy, which does not change |
| ControlRegister.Init | directionFinder_backend/control_register.py:14-22 | the constructor holds the word it read, has written exactly that word once, and the last write equals the held word |
| ControlRegister.ClearBitSpec | directionFinder_backend/control_register.py:25 | `v & ~(1 << k)` has bit `k` clear and every other bit as in `v` |
| ControlRegister.SetBitSpec | directionFinder_backend/control_register.py:27 | `v \| (1 << k)` has bit `k` set and every other bit as in `v` |
| ControlRegister.Pulse | directionFinder_backend/control_register.py:24-30 | a pulse appends exactly three writes whose bit `k` reads 0, 1, 0 and whose other bits are the old word's; earlier writes are kept and the last write is the held word |
| ControlRegister.PulseSync | directionFinder_backend/control_register.py:24-31 | `pulse_sync` pulses bit 0 |
| ControlRegister.ResetAccumulationCounter | directionFinder_backend/control_register.py:43-50 | `reset_accumulation_counter` pulses bit 2 |
| ControlRegister.PulseOverflowRst | directionFinder_backend/control_register.py:52-59 | `pulse_overflow_rst` pulses bit 3 |
| ControlRegister.PulseImpulseArm | directionFinder_backend/control_register.py:61-68 | `pulse_impulse_arm` pulses bit 4 |
| ControlRegister.PulseEndsCleared | directionFinder_backend/control_register.py:24-68 | after any pulse the held word is the old word with the pulsed bit cleared |
| ControlRegister.BlockTrigger | directionFinder_backend/control_register.py:33-36 | `block_trigger` writes once, clears bit 1 and leaves every other bit unchanged |
| ControlRegister.AllowTrigger | directionFinder_backend/control_register.py:38-41 | `allow_trigger` writes once, sets bit 1 and leaves every other bit unchanged |
| ControlRegister.BlockTriggerIdempotent | directionFinder_backend/control_register.py:33-36 | blocking twice holds the same word as blocking once and only repeats the write |
| ControlRegister.AllowTriggerIdempotent | directionFinder_backend/control_register.py:38-41 | allowing twice holds the same word as allowing once and only repeats the write |
| ControlRegister.SetShiftSchedule | directionFinder_backend/control_register.py:70-73 | bits 0..4 are kept, bits 5..16 are the schedule's bits 0..11, and each higher bit is the old bit or the schedule's bit; one write, consistent |
| ControlRegister.ShiftScheduleInField | directionFinder_backend/control_register.py:70-73 | for a schedule below 2^12, bits 5..16 hold the schedule and every other bit is unchanged |
| ControlRegister.ShiftScheduleOverflowsField | directionFinder_backend/control_register.py:72 | a schedule of 2^12 or more sets some bit above 16, whatever the old word |
| Bits.BitOr | directionFinder_backend/control_register.py:27 | bit `k` of `a \| b` is set exactly when it is set in `a` or in `b` |
| Bits.BitAndNot | directionFinder_backend/control_register.py:25 | bit `k` of `a & ~m` is set exactly when it is set in `a` and clear in `m` |
| Bits.BitOfShl | directionFinder_backend/control_register.py:71-72 | bit `j` of `x << n` is 0 below `n` and bit `j - n` of `x` from `n` on |
| Bits.BitsDetermineValue | directionFinder_backend/control_register.py:24-30 | two words with the same bits are equal, which turns bitwise facts about the register into equal words |
| Pairs.Combinations | directionFinder_backend/correlator.py:32 | `n(n-1)/2` pairs, each `i < j < n`, every such pair present, in strictly increasing lexicographic order (so none repeats) |
| Pairs.CombinationsAsSet | directionFinder_backend/correlator.py:32 | the pairs form exactly the set `{(i, j) \| i < j < n}` |
| Correlator.NewLayout | directionFinder_backend/correlator.py:30-35 | cross combinations are all `i < j < n` once each, in lexicographic order, `n(n-1)/2` of them; the auto list is `[(0, 0)]` |
| Correlator.BuildCorrelations | directionFinder_backend/correlator.py:36-42 | the dictionary's keys are exactly the combinations, each mapped to the channel built for it |
| Correlator.FrequencyCorrelationKeys | directionFinder_backend/correlator.py:32-42 | the channel dictionary is keyed by exactly the pairs `i < j < n` and `(0, 0)` |
| Correlator.FetchTimeDomainSnapshot | directionFinder_backend/correlator.py:51-63 | IndexError exactly when more than four channels are asked for and there is a whole frame; otherwise four lists, channel `c < num_channels` holding `4 * (len(sig) div 16)` samples with sample `i` equal to `sig[16*(i/4) + 4c + i%4]`, the others empty |
| Correlator.AppendBlock | directionFinder_backend/correlator.py:60-63 | appending frame `s`'s four samples for channel `c` keeps every channel's sample-to-snapshot mapping |
| Correlator.ChannelSlice | directionFinder_backend/correlator.py:58-63 | channel `c`'s samples `4s .. 4s+3` are snapshot samples `16s + 4c .. 16s + 4c + 3` |
| Correlator.ReassembleDeinterleaved | directionFinder_backend/correlator.py:57-63 | putting the four channel windows back frame by frame gives the snapshot's whole-frame prefix |
| Correlator.SnapshotRoundTrip | directionFinder_backend/correlator.py:51-63 | with four channels de-interleaving succeeds, each channel has `4 * (len div 16)` samples, and re-interleaving gives the snapshot without its trailing partial frame |
| Correlator.GetFftOverflowState | directionFinder_backend/correlator.py:187-192 | overflow is reported exactly when the register reads nonzero |
| Correlator.EventsFilters | directionFinder_backend/correlator.py:84-92 | the words written are the block word, the allow word and the pulse; the arms and the fetches are each the combination list, in order |
| Correlator.EventsOrder | directionFinder_backend/correlator.py:84-89 | every arm happens while the block word is in force, every fetch while the allow word is, and every arm precedes every fetch |
| Correlator.FetchCombinations | directionFinder_backend/correlator.py:81-92 | the run on the device for a given set of failing fetches: raises exactly when a combination has no channel (KeyError, taking precedence) or a fetch raises (ValueError); otherwise every combination is armed with the trigger blocked and a fetch event is logged for it with the trigger allowed, all arms come before all fetches, exactly five register writes are appended, the overflow flag is the register's nonzero test, and the run ends with the overflow query then the bit-3 pulse, whatever the flag |
| Correlator.FetchAll | directionFinder_backend/correlator.py:84-92 | the device side of a run where every combination has a channel and every fetch succeeds: the same event and register guarantees; `FetchChannels` pairs it with the refreshed channels |
| Correlator.AbortedFetch | directionFinder_backend/correlator.py:84-92 | a run that raises has sent the device exactly the words its events write, never read the overflow flag and never touched the overflow reset bit; a missing channel stops it after the block write and the arms before the first missing combination, a failing fetch after every arm, the allow write and the fetches before the first failing one |
| Correlator.FetchKeyed | directionFinder_backend/correlator.py:84-89 | when every combination has a channel, the run succeeds exactly when no fetch raises, and otherwise raises ValueError |
| Correlator.FetchChannels | directionFinder_backend/correlator.py:81-92 | `fetch_combinations` on the channel dictionary: succeeds exactly when every combination has a channel whose `fetch_signal` succeeds on its blocks; raises KeyError for a missing channel, otherwise ValueError; on success the device run is the one `FetchAll` describes, the dictionary keeps its keys, every fetched channel holds the result of its own `fetch_signal`, and every other channel is unchanged |
| Correlator.FetchChannelsRuns | directionFinder_backend/correlator.py:84-90 | on the device, `FetchChannels` gives the same outcome or exception as `FetchCombinations` whose failing fetches are the channels whose `fetch_signal` raises |
| Correlator.FetchChannelsKeyed | directionFinder_backend/correlator.py:84-90 | when every combination has a channel, the channel dictionary is refreshed exactly when every fetched channel's `fetch_signal` succeeds, and otherwise the run raises ValueError |
| Correlator.FetchAllRefreshes | directionFinder_backend/correlator.py:75-79 | `fetch_all` on a freshly built correlator never raises KeyError; it succeeds exactly when every channel's fetch succeeds, and then each channel holds the spectrum its own blocks give |
| Correlator.FetchAllSucceeds | directionFinder_backend/correlator.py:75-79 | `fetch_all` on a freshly built correlator never raises KeyError: it succeeds exactly when no fetch raises |
| Correlator.CorrelateValid | directionFinder_backend/correlator.py:118 | `np.correlate(a, v, 'valid')`: ValueError exactly for an empty operand; `\|a\| - \|v\| + 1` entries, entry `k` being `sum_n a[n+k]*v[n]`; the length for a longer `v` |
| Correlator.Take | directionFinder_backend/correlator.py:107 | `s[0:m]` is the prefix of length `min(len(s), m)` |
| Correlator.PaddedWindow | directionFinder_backend/correlator.py:105-108 | the padded operand has length `len(window) + 2*pad`, zeros outside and the window shifted by `pad` inside |
| Correlator.LagSumOfPadded | directionFinder_backend/correlator.py:105-118 | a lag sum against the padded operand is the unpadded windows' sum at lag `k - pad` |
| Correlator.PaddedLags | directionFinder_backend/correlator.py:105-118 | for equal-length windows the valid correlation of the padded operand has `2*pad + 1` entries, entry `k` being the correlation at lag `k - pad` |
| Correlator.CrossCorrelateWindows | directionFinder_backend/correlator.py:104-118 | one baseline succeeds exactly when the operands are nonempty; for equal-length windows it has `2*pad + 1` entries, entry `k` at lag `k - pad` |
| Correlator.ZeroLagIsEnergy | directionFinder_backend/correlator.py:105-118 | the middle entry of a window correlated with itself is the truncated window's energy `sum_n w[n]^2` |
| Correlator.CrossCorrelations | directionFinder_backend/correlator.py:102-127 | one correlation per cross combination, keyed by exactly those pairs; it fails exactly when a channel index is missing or a baseline's operands are empty |
| Correlator.PaddedAxis | directionFinder_backend/correlator.py:109-112 | `a_time` has one point per padded sample and starts at `-pad/fs` |
| Correlator.PlainAxis | directionFinder_backend/correlator.py:114-117 | `b_time` has one point per sample and starts at 0 |
| Correlator.CorrelationTimes | directionFinder_backend/correlator.py:119-122 | the correlation axis has one point per correlation entry and starts at `-pad/fs`, whatever the window lengths |
| Correlator.PaddedAxisEnds | directionFinder_backend/correlator.py:109-112 | `a_time` runs from `-pad/fs` to `(n + pad - 1)/fs` |
| Correlator.PlainAxisEnds | directionFinder_backend/correlator.py:114-117 | `b_time` runs from 0 to `(n - 1)/fs` |
| Correlator.CorrelationAxisEnds | directionFinder_backend/correlator.py:109-122 | the correlation axis runs from `-pad/fs` to `pad/fs` |
| Correlator.CorrelationTimesUniform | directionFinder_backend/correlator.py:119-122 | the correlation axis starts at `-pad/fs` and steps by `1/fs` |
| Correlator.CorrelationTimeIsLag | directionFinder_backend/correlator.py:109-122 | entry `k` of the correlation sits at time `(k - pad)/fs`, its lag in samples over the sample rate |
| Snapshot.BigEndianValueOfBytes | directionFinder_backend/snapshot.py:25 | reading back the `n`-byte big-endian encoding of `u < 256^n` gives `u` |
| Snapshot.BigEndianBytesOfValue | directionFinder_backend/snapshot.py:25 | encoding the value of a byte string gives the bytes back |
| Snapshot.SignedOfUnsigned | directionFinder_backend/snapshot.py:25 | the two's-complement reading inverts the two's-complement pattern on the representable range |
| Snapshot.DecodeItems | directionFinder_backend/snapshot.py:25 | one item per whole `w`-byte group, each within the `w`-byte signed range |
| Snapshot.DecodeItemsAt | directionFinder_backend/snapshot.py:25 | item `k` is bytes `wk .. wk+w-1` read as a big-endian signed integer |
| Snapshot.UnpackSignal | directionFinder_backend/snapshot.py:24-29 | ValueError exactly when the buffer is not a whole number of items or the complex view gets an odd count; otherwise the decoded `len/w` integers, or with `cvalue` half as many complex values, value `k` being integer `2k` as real part and `2k+1` as imaginary part, for either dtype |
| Snapshot.UnpackInt8 | directionFinder_backend/snapshot.py:25 | with `np.int8`, one sample per byte, each the byte's two's-complement value in `[-128, 127]` |
| Snapshot.UnpackBigEndianInt64 | directionFinder_backend/snapshot.py:25 | with `'>i8'`, `len/8` samples, sample `k` being bytes `8k .. 8k+7` as a big-endian signed 64-bit integer |
| Snapshot.DecodeEncodeItems | directionFinder_backend/snapshot.py:25 | decoding inverts big-endian two's-complement encoding of in-range integers |
| Snapshot.UnpackEncodedReals | directionFinder_backend/snapshot.py:25-29 | without `cvalue`, unpacking an encoded buffer returns the integers unchanged, in either dtype |
| Snapshot.FlattenPairComplex | directionFinder_backend/snapshot.py:28 | pairing integers then flattening the pairs gives the integers back |
| Snapshot.PairFlattenComplex | directionFinder_backend/snapshot.py:28 | flattening complex values then pairing gives the values back |
| Snapshot.UnpackEncodedComplex | directionFinder_backend/snapshot.py:26-29 | with `cvalue`, unpacking encoded `'>i8'` pairs gives back the complex values, real part first |
| Correlation.Interleave | directionFinder_backend/correlation.py:93 | the interleaving has twice the length, and its even bins are snapshot 0 and its odd bins snapshot 1 |
| Correlation.InterleaveSplit | directionFinder_backend/correlation.py:93 | an even-length spectrum is the interleaving of its even and odd bins |
| Correlation.ComplexSnapshot | directionFinder_backend/correlation.py:17-26 | a correlation snapshot decodes exactly when its length is a multiple of 16, to `len/16` complex values |
| Correlation.Spectrum | directionFinder_backend/correlation.py:89-93 | the spectrum exists exactly when both blocks decode to equal lengths; it has twice as many bins, snapshot 0 on the even ones and snapshot 1 on the odd ones |
| Correlation.FetchSignal | directionFinder_backend/correlation.py:89-94 | succeeds exactly when the blocks decode and the calibrations set broadcast against the spectrum, and otherwise raises ValueError; only the spectrum changes, to the fresh spectrum with the calibrations applied, which without calibrations is the raw interleaved spectrum |
| Correlation.FetchSignalCalibrated | directionFinder_backend/correlation.py:78-94 | with both calibrations of one offset per bin, a fetch succeeds whenever the blocks decode, and each bin is rotated first by the bin-table offset and then by the cable offset |
| Correlation.FetchSignalIdempotent | directionFinder_backend/correlation.py:89-94 | fetching again from the same blocks returns the same channel, so a combination listed twice ends as if fetched once |
| Correlation.NewChannel | directionFinder_backend/correlation.py:12-41 | construction succeeds exactly when the two blocks decode into a spectrum (ValueError otherwise); the new channel stores that interleaved spectrum, keeps its baseline and band, has no calibration, and its axis has one bin per spectrum entry |
| Correlation.FrequencyBins | directionFinder_backend/correlation.py:37-41 | one frequency per bin, the first being `f_start` |
| Correlation.FrequencyBinAt | directionFinder_backend/correlation.py:37-41 | bin `k` is `f_start + k*(f_stop - f_start)/N` |
| Correlation.FrequencyBinsSpan | directionFinder_backend/correlation.py:37-41 | for a nonempty band the axis starts at `f_start`, rises strictly and stays below `f_stop` |
| Correlation.BinWithinBand | directionFinder_backend/correlation.py:37-41 | every bin lies in `[f_start, f_stop)` |
| Correlation.BinsRise | directionFinder_backend/correlation.py:37-41 | a later bin lies strictly above an earlier one |
| Correlation.Nearest | directionFinder_backend/correlation.py:48 | the chosen calibration frequency is nearest to `f`, and strictly nearer than every earlier one |
| Correlation.FrequencyBinOffsets | directionFinder_backend/correlation.py:43-50 | AssertionError when the tables differ in length; ValueError when bins meet an empty table; otherwise one offset per bin, the phase of the nearest calibration frequency, first on a tie |
| Correlation.CalibrationAtMeasuredFrequency | directionFinder_backend/correlation.py:46-50 | a bin lying on a (distinct) calibration frequency takes exactly that frequency's phase |
| Correlation.CableLengthOffsets | directionFinder_backend/correlation.py:62-71 | ZeroDivisionError exactly for a zero velocity factor; otherwise offset `k` is `2*pi*(t_b - t_a)*f_k` with `t = length/(c*vf)` |
| Correlation.CableOffsetsSymmetry | directionFinder_backend/correlation.py:62-71 | swapping the cables negates every offset; identical cables give zero; a longer delay on B gives positive offsets at positive frequencies |
| Correlation.Derotate | directionFinder_backend/correlation.py:81-82 | numpy broadcasting: defined exactly for equal lengths or a length-one operand, ValueError otherwise; equal lengths rotate bin by bin |
| Correlation.ApplyCalibrations | directionFinder_backend/correlation.py:78-87 | with no calibration the spectrum is unchanged; with one, it is rotated by that one; with both, it succeeds exactly when the bin table broadcasts against the spectrum and the cable offsets against that result, and for one offset per bin each bin is rotated by the bin-table offset first and the cable offset second; every failure is ValueError |
| Correlation.CalibrationsCompose | directionFinder_backend/correlation.py:78-87 | when rotations compose additively, applying both calibrations is one rotation by the sum of the two offsets in each bin |
| Correlation.ZeroOffsetsChangeNothing | directionFinder_backend/correlation.py:80-82 | zero offsets leave the spectrum unchanged |
| Correlation.StrongestBin | directionFinder_backend/correlation.py:102 | the chosen bin is never bin 0; no non-DC bin is stronger and every earlier non-DC bin is strictly weaker |
| Correlation.StrongestFrequency | directionFinder_backend/correlation.py:96-103 | ValueError for fewer than two bins; otherwise the axis entry of the strongest non-DC bin |
| Correlation.StrongestFrequencyIsPeak | directionFinder_backend/correlation.py:96-103 | on the constructor's axis the answer is the frequency of a non-DC bin no other non-DC bin exceeds |
| Correlation.PhaseAtFreq | directionFinder_backend/correlation.py:105-112 | IndexError for fewer than two bins; ValueError or OverflowError for zero width; otherwise the phase of bin `round((f - f_start)/width)`, with negative numbers counting from the end and IndexError outside |
| Correlation.PhaseAtFreqReadsNearestBin | directionFinder_backend/correlation.py:105-112 | any frequency within half a bin of bin `k`, bin `k`'s own frequency included, reads bin `k`'s phase |
| Correlation.ApplyFrequencyBinCalibration | directionFinder_backend/correlation.py:43-51 | the channel gains the bin table's offsets and nothing else changes; it fails exactly when the table lookup fails |
| Correlation.ApplyCableLengthCalibration | directionFinder_backend/correlation.py:53-72 | the channel gains the cable offsets and nothing else changes; it fails exactly for a zero velocity factor |
| AntennaArray.NewArray | directionFinder_backend/antenna_array.py:7-10 | the array holds the given antennas |
| AntennaArray.Len | directionFinder_backend/antenna_array.py:43-44 | `len(array)` is the number of antennas |
| AntennaArray.Iter | directionFinder_backend/antenna_array.py:39-41 | `__iter__` rewinds the cursor and keeps the antennas |
| AntennaArray.Next | directionFinder_backend/antenna_array.py:46-50 | StopIteration exactly at the end, changing nothing; otherwise the antenna under the cursor, with the cursor advanced by one |
| AntennaArray.DrainFrom | directionFinder_backend/antenna_array.py:46-50 | calling `next` until StopIteration yields the antennas from the cursor on, in order |
| AntennaArray.IterYieldsAll | directionFinder_backend/antenna_array.py:39-50 | iterating yields every antenna once, in index order, whatever an earlier iteration left |
| AntennaArray.EachPair | directionFinder_backend/antenna_array.py:52-55 | `n(n-1)/2` pairs; pair `k` is the two antennas at the `k`-th index combination `i < j` |
| AntennaArray.EachPairCoversAll | directionFinder_backend/antenna_array.py:52-55 | every `(antennas[i], antennas[j])` with `i < j` appears, in lexicographic index order, so none twice |
| AntennaArray.EachPairPhaseDifference | directionFinder_backend/antenna_array.py:57-69 | one value per pair, in pair order, entry `k` being the phase difference of pair `k` |
| AntennaArray.PhaseDifferenceSign | directionFinder_backend/antenna_array.py:71-78 | entry `k` wraps A's phase minus B's: for an odd wrap, the negation of B minus A |
| AntennaArray.MkCircular | directionFinder_backend/antenna_array.py:22-28 | ZeroDivisionError exactly for zero elements; otherwise `max(n, 0)` antennas, element `el` being `(d, 0)` rotated by `el*2pi/n` |
| AntennaArray.MkCircularWithRef | directionFinder_backend/antenna_array.py:30-37 | ZeroDivisionError exactly for one element; otherwise the reference antenna at `(0, 0)` and then the ring of `n - 1`, `max(n, 1)` antennas in all |
| AntennaArray.CircularAnglesWithinTurn | directionFinder_backend/antenna_array.py:25-27 | the ring's rotation angles start at zero and stay below a full turn |
| DirectionFinder.SampledAngleAt | directionFinder_backend/direction_finder.py:18 | grid angle `j` is `-pi + j*2pi/999` |
| DirectionFinder.SampledAnglesGrid | directionFinder_backend/direction_finder.py:18 | the 1000-point grid starts at `-pi`, ends at `pi` and rises strictly |
| DirectionFinder.BuildManifold | directionFinder_backend/direction_finder.py:27-29 | the manifold has an entry for exactly the given angles, each the array's vector at that angle |
| DirectionFinder.GridManifoldSize | directionFinder_backend/direction_finder.py:27-30 | a manifold over the grid has exactly 1000 entries |
| DirectionFinder.SetFrequency | directionFinder_backend/direction_finder.py:23-31 | the frequency becomes current and cached and the current manifold is its cached one; a cached frequency leaves the cache untouched and an uncached one adds exactly its manifold |
| DirectionFinder.SetFrequencyCaches | directionFinder_backend/direction_finder.py:26-31 | setting the same frequency twice is setting it once, and returning to a frequency brings back the manifold built first |
| DirectionFinder.SetFrequencyKeepsValid | directionFinder_backend/direction_finder.py:23-31 | setting a frequency keeps every cached manifold keyed by the whole grid |
| DirectionFinder.NewFinder | directionFinder_backend/direction_finder.py:18-21 | the first seed is the first grid angle `-pi`, the cache holds exactly the initial frequency, and the finder is valid |
| DirectionFinder.WrapBelowGrid | directionFinder_backend/direction_finder.py:35-36 | the wrap-around index `-int((a[0] - closest)/width)`; IndexError for one grid point, OverflowError for zero width |
| DirectionFinder.ScanStart | directionFinder_backend/direction_finder.py:34-38 | a start that exists is a grid index; an empty grid raises IndexError, a wrap over a grid whose first two angles coincide raises OverflowError, and no other error can occur |
| DirectionFinder.ScanStartOnGrid | directionFinder_backend/direction_finder.py:34-38 | from grid angle `j` the scan starts at index `(j - 83) mod 1000`, in the wrap-around branch too |
| DirectionFinder.ScanStartInside | directionFinder_backend/direction_finder.py:37-38 | from index 84 on, stepping back stays in the grid and lands 83 steps down |
| DirectionFinder.ScanStartWrapped | directionFinder_backend/direction_finder.py:35-37 | below index 84 stepping back leaves the grid and wraps to index `(j - 83) mod 1000` |
| DirectionFinder.Distances | directionFinder_backend/direction_finder.py:40-46 | one distance per grid angle, against that angle's manifold vector |
| DirectionFinder.ScanPositionOf | directionFinder_backend/direction_finder.py:41-43 | the circular scan from `start` visits each grid index, at position `(i - start) mod N` |
| DirectionFinder.FirstMinFromIsMinimal | directionFinder_backend/direction_finder.py:40-49 | the reference answer's distance is at most every grid angle's, and every index scanned before it is strictly farther |
| DirectionFinder.ScanCircular | directionFinder_backend/direction_finder.py:40-49 | the scan loop with strict `<` returns the first minimum in circular order from the start |
| DirectionFinder.FindClosestPoint | directionFinder_backend/direction_finder.py:33-51 | fails exactly when the start cannot be found (with the start's own IndexError or OverflowError) or a grid angle has no manifold entry (KeyError); otherwise returns the first minimum in circular order from the start and records it as the new seed, changing nothing else; the answer is a grid angle, and on a valid finder it always succeeds |
| DirectionFinder.ReseedKeepsValid | directionFinder_backend/direction_finder.py:50 | recording a grid angle as the new seed keeps a valid finder valid, so a successful search leaves the finder valid |
| DirectionFinder.ValidFinderSearches | directionFinder_backend/direction_finder.py:33-45 | on a valid finder the search starts 83 steps before the previous answer and every lookup hits |
| SignalGeneratorCorrelation.NewSimChannel | directionFinder_backend/signal_generator_correlation.py:5-9 | a new simulated channel keeps its baseline and band and has no spectrum |
| SignalGeneratorCorrelation.Update | directionFinder_backend/signal_generator_correlation.py:11-12 | `update` replaces the spectrum and nothing else |
| SignalGeneratorCorrelation.SimWidth | directionFinder_backend/signal_generator_correlation.py:20 | the bin width is zero exactly for an empty band |
| SignalGeneratorCorrelation.SimBinAt | directionFinder_backend/signal_generator_correlation.py:15-20 | bin `k` is `f_start + k*(f_stop - f_start)/(N - 1)` and the last bin is `f_stop` |
| SignalGeneratorCorrelation.BinAtFreq | directionFinder_backend/signal_generator_correlation.py:14-23 | AttributeError before any update; IndexError for fewer than two bins; ValueError or OverflowError for an empty band; otherwise entry `round((f - f_start)/width)` under Python indexing |
| SignalGeneratorCorrelation.RoundEitherSign | directionFinder_backend/signal_generator_correlation.py:21 | a value within half a step of `k` steps rounds to `k` for a step of either sign |
| SignalGeneratorCorrelation.BinAtFreqReadsNearest | directionFinder_backend/signal_generator_correlation.py:20-23 | any frequency within half a bin of axis point `k` reads entry `k` |
| SignalGeneratorCorrelation.BinAtFreqEnds | directionFinder_backend/signal_generator_correlation.py:14-23 | `bin_at_freq(f_start)` is the first entry and `bin_at_freq(f_stop)` the last |
| NumPy.LinspaceAt | directionFinder_backend/correlation.py:37-41 | point `k` of `np.linspace` is `start + k*(stop - start)/d`, with `d = num - 1` with the endpoint and `num` without |
| NumPy.Round | directionFinder_backend/correlation.py:109 | Python 2 `round` is within one half of its argument, and a tie goes away from zero |
| NumPy.RoundToNearestStep | directionFinder_backend/correlation.py:108-109 | a value within less than half a step of `k` steps rounds to `k` once divided by the step |
| NumPy.Trunc | directionFinder_backend/direction_finder.py:36 | `int()` of a float truncates toward zero |
| NumPy.PyIndex | directionFinder_backend/correlation.py:110 | Python indexing: defined exactly on `[-len, len)`, a negative index counting from the end, and IndexError everywhere else |
| NumPy.SearchSorted | directionFinder_backend/direction_finder.py:37 | `np.searchsorted`: every entry before the answer is smaller and the entry at it is not |
| NumPy.ArgMin | directionFinder_backend/correlation.py:48 | `np.argmin`: the first index holding the least value |
| NumPy.ArgMax | directionFinder_backend/correlation.py:102 | `np.argmax`: the first index holding the greatest value |

## Left out

- Trigonometry and complex exponentials are function parameters, and nothing is proved about their values. This covers `Antenna.rotated`, `Antenna.phase_at_angle`, the `atan2` wrap, `distance_between_vectors`, `np.exp(1j*x)` with `np.conj`, and `np.angle`.
- `scipy.signal.resample` (FFT upsampling) is not modelled. `Correlator.CrossCorrelations` and the correlation time axis stop just before it. The constants `upsample_factor`, `subsignal_length_max` and `time_domain_padding` are the parameters `pad` and `maxLen`.
- `do_time_domain_cross_correlation_resample_first` is not modelled. It is an experimental variant that prints and returns inside its loop.
- `df_strongest_signal` is not modelled: it calls correlator methods that do not exist in the code. `df_frequency` is empty.
- `AntennaArray.mk_from_config` is not modelled, because it reads a JSON file.
- `fetch_crosses`, `fetch_autos` and `fetch_all` are one-line calls of `fetch_combinations` on fixed lists, so they have no members of their own. `Correlator.FetchAllSucceeds` and `Correlator.FetchAllRefreshes` cover the list `fetch_all` passes.
- Hardware access is not modelled: the katcp client, `snapshot_arm`, `snapshot_get`, `read_uint`, `write_int`, `time.sleep` and logging. Register reads and snapshot bytes are parameters. Register writes are a trace, and the actions of `fetch_combinations` are an event list. `set_accumulation_len` is only a register write and a re-sync. `arm_combination`, `re_sync` and the correlator's register helpers delegate to `ControlRegister`.
- The int64-to-float64 conversion in `unpack_signal` is treated as exact. float64 loses precision above 2^53, and rounding in general is not modelled.
- Correlator.FetchCombinations: it describes the device side only; its failing fetches are the parameter `fetchFails` and its outcome holds no channels. `Correlator.FetchChannels` computes the failing fetches from each channel's blocks and calibrations and returns the refreshed channels. The partial run before an exception is described by `Correlator.AbortedFetch`, not returned with the error.
- Correlator.AbortedFetch: the fetch that raises is not recorded as an event, although it may already have read its snapshots from the device.
- Correlator.FetchChannels: on an exception the dictionary is not returned, although the channels fetched before the failing one have already been refreshed. Each combination's blocks are a fixed function of the combination, so a combination listed twice reads the same bytes twice, where the device would capture new ones.
- Correlator.CrossCorrelateWindows: entry values are stated only for equal-length windows, which the code assumes. For unequal windows only success is stated.
- Correlator.CorrelateValid: when the second operand is the longer one, only the length is stated, not the reversed values.
- Correlator.CorrelationTimes: requires a positive sample rate. The constructor's default is 800 MHz.
- Correlation.Spectrum: blocks of different lengths are rejected with ValueError. numpy would instead build a ragged object array.
- Correlation.Interleave: requires halves of equal length, for the same reason.
- Correlation.ApplyCalibrations: `offsets != None` is read as "the calibration has been set". With the numpy of the code's era, comparing an array to None gives a scalar True. From numpy 1.13 on it compares element by element, and the `if` raises ValueError for more than one bin.
- Correlation.NewChannel: the band ends are natural numbers, as the constructor converts them with `np.uint64`. The truncation of the float `fs/2` that the correlator passes is left to the caller. A negative end or one of 2^64 or more, where `np.uint64` wraps, is not modelled.
- ControlRegister.SetShiftSchedule: the schedule is a natural number. Python would also accept a negative schedule, and OR-ing it in would make the register word itself negative. Every caller passes `0b00000000000`.
- Correlation.ApplyFrequencyBinCalibration: on failure the channel is left unchanged. The code has already replaced the offsets with an uninitialised array when `np.argmin` raises.
- Correlation.ApplyCableLengthCalibration: on failure the channel is left unchanged. The code has already replaced the offsets with an uninitialised array when the delay division raises. The division is modelled as Python float division, so a zero velocity factor raises ZeroDivisionError.
- Correlation.FetchSignal: on failure the channel is left unchanged. The code has already stored the uncalibrated spectrum when `apply_calibrations` raises.
- Correlation.PhaseAtFreqReadsNearestBin: requires `f_start < f_stop`, the constructor's band `0 .. fs/2`.
- AntennaArray.NewArray: the cursor starts at 0. In the code the cursor attribute only exists after `__iter__`, so calling `next` first raises AttributeError.
- DirectionFinder.FindClosestPoint: manifold keys are exact reals, and a KeyError is reported whenever any grid angle is missing from the manifold. The code raises at the first missing angle in scan order, and the outcome is the same KeyError.
