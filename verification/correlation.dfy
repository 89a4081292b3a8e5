/** One baseline of the frequency-domain correlator (`Correlation`): the
    spectrum read from its two snapshot blocks, the frequency axis of its
    bins, the two phase calibrations (per-bin table and cable delay), and
    the two queries the direction finder makes (strongest bin, phase at a
    frequency).

    Complex values are pairs of exact reals. The operations numpy performs
    with transcendental functions are parameters: `derotate(z, phase)` is
    `z * conj(exp(1j * phase))` and `angle(z)` is `np.angle(z)`. Magnitudes
    are compared through the squared modulus, which orders values exactly as
    `np.abs` does. */
module Correlation {
  import opened Wrappers
  import opened NumPy
  import opened Pairs
  import Snapshot

  /** `scipy.constants.c`, metres per second. */
  const C: real := 299792458.0

  datatype Cplx = Cplx(re: real, im: real)

  /** `|z|^2`; `np.abs` is its square root, so both order values alike. */
  function Norm2(z: Cplx): real
  {
    z.re * z.re + z.im * z.im
  }

  /** `astype(np.float64)` followed by the complex view. */
  function ToCplx(z: Snapshot.Complex): Cplx
  {
    Cplx(z.re as real, z.im as real)
  }

  function ToCplxs(zs: seq<Snapshot.Complex>): (r: seq<Cplx>)
    ensures |r| == |zs|
    ensures forall k :: 0 <= k < |r| ==> r[k] == ToCplx(zs[k])
  {
    seq(|zs|, k requires 0 <= k < |zs| => ToCplx(zs[k]))
  }

  /** A correlation channel: its baseline, the band `[fStart, fStop)` held as
      the unsigned integers the constructor stores, the spectrum, the bin
      frequencies fixed at construction and the optional calibrations. */
  datatype Channel = Channel(
    comb: Pair,
    fStart: nat,
    fStop: nat,
    signal: seq<Cplx>,
    bins: seq<real>,
    binOffsets: Option<seq<real>>,
    cableOffsets: Option<seq<real>>)

  /** `np.ravel((s0, s1), order='F')`: alternate the two snapshots, the
      first on even positions. */
  function Interleave<T>(s0: seq<T>, s1: seq<T>): (r: seq<T>)
    requires |s0| == |s1|
    ensures |r| == 2 * |s0|
    ensures Evens(r) == s0 && Odds(r) == s1
  {
    seq(2 * |s0|, i requires 0 <= i < 2 * |s0| => if i % 2 == 0 then s0[i / 2] else s1[i / 2])
  }

  function Evens<T>(r: seq<T>): (e: seq<T>)
    ensures |e| == |r| / 2
  {
    seq(|r| / 2, k requires 0 <= k < |r| / 2 => r[2 * k])
  }

  function Odds<T>(r: seq<T>): (o: seq<T>)
    ensures |o| == |r| / 2
  {
    seq(|r| / 2, k requires 0 <= k < |r| / 2 => r[2 * k + 1])
  }

  /** An even-length sequence is the interleaving of its two halves. */
  lemma InterleaveSplit<T>(r: seq<T>)
    requires |r| % 2 == 0
    ensures Interleave(Evens(r), Odds(r)) == r
  {
    var u := Interleave(Evens(r), Odds(r));
    forall i | 0 <= i < |r|
      ensures u[i] == r[i]
    {
      if i % 2 == 0 {
        assert 2 * (i / 2) == i;
      } else {
        assert 2 * (i / 2) + 1 == i;
      }
    }
  }

  /** `frequency_bins`: `np.linspace(f_start, f_stop, n, endpoint=False)`. */
  function FrequencyBins(fStart: nat, fStop: nat, n: nat): (bins: seq<real>)
    ensures |bins| == n
    ensures n > 0 ==> bins[0] == fStart as real
  {
    Linspace(fStart as real, fStop as real, n, false)
  }

  /** Bin `k` starts `k` bin widths above `f_start`, the width being the
      band divided by the number of bins. */
  lemma FrequencyBinAt(fStart: nat, fStop: nat, n: nat, k: nat)
    requires k < n
    ensures FrequencyBins(fStart, fStop, n)[k]
            == (fStart as real) + (k as real) * (((fStop - fStart) as real) / (n as real))
  {
    LinspaceAt(fStart as real, fStop as real, n, false, k);
  }

  /** For a nonempty band the bins rise strictly, the first is `f_start`,
      and every bin lies below `f_stop`. */
  lemma FrequencyBinsSpan(fStart: nat, fStop: nat, n: nat)
    requires fStart < fStop
    ensures var bins := FrequencyBins(fStart, fStop, n);
            && (n > 0 ==> bins[0] == fStart as real)
            && (forall k :: 0 <= k < n ==> fStart as real <= bins[k] < fStop as real)
            && (forall j, k :: 0 <= j < k < n ==> bins[j] < bins[k])
  {
    var bins := FrequencyBins(fStart, fStop, n);
    if n > 0 {
      FrequencyBinAt(fStart, fStop, n, 0);
    }
    forall k | 0 <= k < n
      ensures fStart as real <= bins[k] < fStop as real
    {
      BinWithinBand(fStart, fStop, n, k);
    }
    forall j, k | 0 <= j < k < n
      ensures bins[j] < bins[k]
    {
      BinsRise(fStart, fStop, n, j, k);
    }
  }

  lemma BinWithinBand(fStart: nat, fStop: nat, n: nat, k: nat)
    requires fStart < fStop && k < n
    ensures fStart as real <= FrequencyBins(fStart, fStop, n)[k] < fStop as real
  {
    var a, b := fStart as real, fStop as real;
    var w := (b - a) / (n as real);
    LinspaceAtStep(a, b, n, false, k, w);
    StepWithin(a, b, n as real, k as real, w);
  }

  /** `k` steps of `(b - a) / n` from `a`, for `k < n`, stay in `[a, b)`. */
  lemma StepWithin(a: real, b: real, n: real, k: real, w: real)
    requires a < b && 0.0 <= k < n && w == (b - a) / n
    ensures a <= a + k * w < b
  {
    assert n * w == b - a;
    MulLess(k, n, w);
  }

  lemma BinsRise(fStart: nat, fStop: nat, n: nat, j: nat, k: nat)
    requires fStart < fStop && j < k < n
    ensures FrequencyBins(fStart, fStop, n)[j] < FrequencyBins(fStart, fStop, n)[k]
  {
    var w := ((fStop - fStart) as real) / (n as real);
    assert w > 0.0;
    LinspaceAtStep(fStart as real, fStop as real, n, false, j, w);
    LinspaceAtStep(fStart as real, fStop as real, n, false, k, w);
    MulLess(j as real, k as real, w);
  }

  lemma MulLess(a: real, b: real, w: real)
    requires 0.0 <= a < b && w > 0.0
    ensures 0.0 <= a * w < b * w
  {
  }

  /** The index of the calibration frequency nearest to `f` (the first one
      on a tie), as `np.argmin(np.abs(frequencies - f))` picks it. */
  function Nearest(freqs: seq<real>, f: real): (j: nat)
    requires |freqs| > 0
    ensures j < |freqs|
    ensures forall i :: 0 <= i < |freqs| ==> Abs(freqs[j] - f) <= Abs(freqs[i] - f)
    ensures forall i :: 0 <= i < j ==> Abs(freqs[j] - f) < Abs(freqs[i] - f)
  {
    var d := seq(|freqs|, i requires 0 <= i < |freqs| => Abs(freqs[i] - f));
    assert forall i :: 0 <= i < |freqs| ==> d[i] == Abs(freqs[i] - f);
    ArgMin(d)
  }

  /** `apply_frequency_bin_calibration(frequencies, phases)`: each bin takes
      the phase measured at the calibration frequency nearest to it. The
      two tables must have the same length (AssertionError otherwise); an
      empty table with any bins makes `np.argmin` raise ValueError. */
  function FrequencyBinOffsets(bins: seq<real>, freqs: seq<real>, phases: seq<real>): (r: Result<seq<real>>)
    ensures r.Failure? <==> |freqs| != |phases| || (|bins| > 0 && |freqs| == 0)
    ensures |freqs| != |phases| ==> r == Failure(AssertionError)
    ensures |freqs| == |phases| && |bins| > 0 && |freqs| == 0 ==> r == Failure(ValueError)
    ensures r.Success? ==> |r.value| == |bins|
    ensures r.Success? ==> forall k :: 0 <= k < |bins| ==> NearestWitness(freqs, phases, bins[k], r.value[k])
  {
    if |freqs| != |phases| then Failure(AssertionError)
    else if |bins| == 0 then Success([])
    else if |freqs| == 0 then Failure(ValueError)
    else
      var offsets := seq(|bins|, k requires 0 <= k < |bins| => phases[Nearest(freqs, bins[k])]);
      assert forall k :: 0 <= k < |bins| ==> NearestWitness(freqs, phases, bins[k], offsets[k]) by {
        forall k | 0 <= k < |bins|
          ensures NearestWitness(freqs, phases, bins[k], offsets[k])
        {
          var j := Nearest(freqs, bins[k]);
          assert offsets[k] == phases[j];
        }
      }
      Success(offsets)
  }

  /** `p` is the phase of a calibration frequency nearest to `f`, the first
      such on a tie. */
  predicate NearestWitness(freqs: seq<real>, phases: seq<real>, f: real, p: real)
    requires |freqs| == |phases|
  {
    exists j :: 0 <= j < |freqs| && p == phases[j] &&
      (forall i :: 0 <= i < |freqs| ==> Abs(freqs[j] - f) <= Abs(freqs[i] - f)) &&
      (forall i :: 0 <= i < j ==> Abs(freqs[j] - f) < Abs(freqs[i] - f))
  }

  /** Every bin lying exactly on a calibration frequency takes that
      frequency's phase, provided the calibration frequencies are distinct. */
  lemma CalibrationAtMeasuredFrequency(bins: seq<real>, freqs: seq<real>, phases: seq<real>, k: nat, j: nat)
    requires |freqs| == |phases| && k < |bins| && j < |freqs|
    requires bins[k] == freqs[j]
    requires forall a, b :: 0 <= a < b < |freqs| ==> freqs[a] != freqs[b]
    ensures FrequencyBinOffsets(bins, freqs, phases).value[k] == phases[j]
  {
    var n := Nearest(freqs, bins[k]);
    assert Abs(freqs[n] - bins[k]) <= Abs(freqs[j] - bins[k]) == 0.0;
  }

  /** Signal delay along a cable: length over propagation speed. */
  function Delay(length: real, velocityFactor: real): real
    requires velocityFactor != 0.0
  {
    length / (C * velocityFactor)
  }

  /** `apply_cable_length_calibration`: each bin's offset is the phase that
      the difference of the two cable delays accumulates at the bin's
      frequency, `2 pi (t_b - t_a) f`. A zero velocity factor makes the
      delay division raise ZeroDivisionError. */
  function CableLengthOffsets(bins: seq<real>, la: real, vfa: real, lb: real, vfb: real): (r: Result<seq<real>>)
    ensures r.Failure? <==> vfa == 0.0 || vfb == 0.0
    ensures r.Failure? ==> r.error == ZeroDivisionError
    ensures r.Success? ==> |r.value| == |bins|
    ensures r.Success? ==> forall k :: 0 <= k < |bins| ==>
              r.value[k] == 2.0 * Pi * (Delay(lb, vfb) - Delay(la, vfa)) * bins[k]
  {
    if vfa == 0.0 || vfb == 0.0 then Failure(ZeroDivisionError)
    else
      var dt := Delay(lb, vfb) - Delay(la, vfa);
      Success(seq(|bins|, k requires 0 <= k < |bins| => 2.0 * Pi * dt * bins[k]))
  }

  /** Swapping the two cables negates every offset; identical cables give
      no offset; when B's cable is the slower path, every positive
      frequency gets a positive offset (B is delayed). */
  lemma CableOffsetsSymmetry(bins: seq<real>, la: real, vfa: real, lb: real, vfb: real)
    requires vfa != 0.0 && vfb != 0.0
    ensures var ab := CableLengthOffsets(bins, la, vfa, lb, vfb).value;
            var ba := CableLengthOffsets(bins, lb, vfb, la, vfa).value;
            && (forall k :: 0 <= k < |bins| ==> ba[k] == -ab[k])
            && (la == lb && vfa == vfb ==> forall k :: 0 <= k < |bins| ==> ab[k] == 0.0)
            && (Delay(lb, vfb) > Delay(la, vfa) ==> forall k :: 0 <= k < |bins| && bins[k] > 0.0 ==> ab[k] > 0.0)
  {
    var dt := Delay(lb, vfb) - Delay(la, vfa);
    forall k | 0 <= k < |bins| && dt > 0.0 && bins[k] > 0.0
      ensures 2.0 * Pi * dt * bins[k] > 0.0
    {
      PositiveProduct(2.0 * Pi * dt, bins[k]);
    }
  }

  lemma PositiveProduct(a: real, b: real)
    requires a > 0.0 && b > 0.0
    ensures a * b > 0.0
  {
  }

  /** numpy broadcasting of two one-dimensional operands of lengths `n`
      and `m`: equal lengths pair up and a length-one operand is repeated. */
  predicate Broadcasts(n: nat, m: nat)
  {
    n == m || n == 1 || m == 1
  }

  /** The length of a broadcast result. */
  function BroadcastLength(n: nat, m: nat): nat
  {
    if n == 1 then m else n
  }

  /** `signal * np.conj(np.exp(1j * offsets))` with numpy broadcasting:
      equal lengths pair up, a length-one operand is repeated, anything else
      raises ValueError. */
  function Derotate(signal: seq<Cplx>, offsets: seq<real>, derotate: (Cplx, real) -> Cplx): (r: Result<seq<Cplx>>)
    ensures r.Success? <==> Broadcasts(|signal|, |offsets|)
    ensures r.Failure? ==> r.error == ValueError
    ensures r.Success? ==> |r.value| == BroadcastLength(|signal|, |offsets|)
    ensures r.Success? && |signal| == |offsets| ==>
              forall k :: 0 <= k < |signal| ==> r.value[k] == derotate(signal[k], offsets[k])
  {
    if |signal| == |offsets| then
      Success(seq(|signal|, k requires 0 <= k < |signal| => derotate(signal[k], offsets[k])))
    else if |offsets| == 1 then
      Success(seq(|signal|, k requires 0 <= k < |signal| => derotate(signal[k], offsets[0])))
    else if |signal| == 1 then
      Success(seq(|offsets|, k requires 0 <= k < |offsets| => derotate(signal[0], offsets[k])))
    else Failure(ValueError)
  }

  /** `apply_calibrations`: the per-bin table first, then the cable delay,
      each only when it has been set. */
  function ApplyCalibrations(signal: seq<Cplx>, binOffsets: Option<seq<real>>, cableOffsets: Option<seq<real>>,
                             derotate: (Cplx, real) -> Cplx): (r: Result<seq<Cplx>>)
    ensures binOffsets.None? && cableOffsets.None? ==> r == Success(signal)
    ensures binOffsets.Some? && cableOffsets.None? ==> r == Derotate(signal, binOffsets.value, derotate)
    ensures binOffsets.None? && cableOffsets.Some? ==> r == Derotate(signal, cableOffsets.value, derotate)
    ensures binOffsets.Some? && cableOffsets.Some? ==>
              (r.Success? <==>
                 Broadcasts(|signal|, |binOffsets.value|) &&
                 Broadcasts(BroadcastLength(|signal|, |binOffsets.value|), |cableOffsets.value|))
    ensures r.Failure? ==> r.error == ValueError
    ensures binOffsets.Some? && cableOffsets.Some? &&
            |binOffsets.value| == |signal| && |cableOffsets.value| == |signal| ==>
              && r.Success? && |r.value| == |signal|
              && forall k :: 0 <= k < |signal| ==>
                   r.value[k] == derotate(derotate(signal[k], binOffsets.value[k]), cableOffsets.value[k])
  {
    var afterBins :- if binOffsets.Some? then Derotate(signal, binOffsets.value, derotate) else Success(signal);
    if cableOffsets.Some? then Derotate(afterBins, cableOffsets.value, derotate) else Success(afterBins)
  }

  /** With a rotation that composes additively, applying both calibrations
      is one rotation by the sum of the two offsets in each bin. */
  lemma CalibrationsCompose(signal: seq<Cplx>, a: seq<real>, b: seq<real>, derotate: (Cplx, real) -> Cplx)
    requires |a| == |signal| && |b| == |signal|
    requires forall z, x, y :: derotate(derotate(z, x), y) == derotate(z, x + y)
    ensures var sum := seq(|a|, k requires 0 <= k < |a| => a[k] + b[k]);
            ApplyCalibrations(signal, Some(a), Some(b), derotate) == ApplyCalibrations(signal, Some(sum), None, derotate)
  {
    var sum := seq(|a|, k requires 0 <= k < |a| => a[k] + b[k]);
    var once := Derotate(signal, a, derotate).value;
    var twice := Derotate(once, b, derotate).value;
    var direct := Derotate(signal, sum, derotate).value;
    forall k | 0 <= k < |signal|
      ensures twice[k] == direct[k]
    {
      assert twice[k] == derotate(derotate(signal[k], a[k]), b[k]);
    }
    assert twice == direct;
  }

  /** Offsets of zero leave the spectrum as it is when a zero rotation is
      the identity. */
  lemma ZeroOffsetsChangeNothing(signal: seq<Cplx>, derotate: (Cplx, real) -> Cplx)
    requires forall z :: derotate(z, 0.0) == z
    ensures ApplyCalibrations(signal, Some(seq(|signal|, k => 0.0)), None, derotate) == Success(signal)
  {
    var r := Derotate(signal, seq(|signal|, k => 0.0), derotate);
    assert r.value == signal;
  }

  /** One snapshot block read as complex `'>i8'` data: 16 bytes per value.
      A block whose length is not a multiple of 16 raises ValueError. */
  function ComplexSnapshot(raw: seq<Snapshot.Byte>): (r: Result<seq<Cplx>>)
    ensures r.Success? <==> |raw| % 16 == 0
    ensures r.Success? ==> |r.value| == |raw| / 16
    ensures r.Success? ==> r.value == ToCplxs(Snapshot.UnpackSignal(raw, Snapshot.BigEndianInt64, true).value.values)
  {
    var u := Snapshot.UnpackSignal(raw, Snapshot.BigEndianInt64, true);
    assert u.Success? <==> |raw| % 16 == 0 by {
      SixteenIsTwoWords(|raw|);
    }
    if u.Failure? then Failure(ValueError)
    else
      assert |raw| / 16 == (|raw| / 8) / 2 by {
        SixteenIsTwoWords(|raw|);
      }
      Success(ToCplxs(u.value.values))
  }

  lemma SixteenIsTwoWords(n: nat)
    ensures (n % 8 == 0 && (n / 8) % 2 == 0) <==> n % 16 == 0
    ensures n / 16 == (n / 8) / 2
  {
  }

  /** The spectrum of one fetch: both blocks decoded and interleaved, the
      first block on the even bins and the second on the odd ones. Blocks of
      different lengths are rejected. */
  function Spectrum(raw0: seq<Snapshot.Byte>, raw1: seq<Snapshot.Byte>): (r: Result<seq<Cplx>>)
    ensures r.Success? <==> |raw0| % 16 == 0 && |raw1| % 16 == 0 && |raw0| == |raw1|
    ensures r.Success? ==> |r.value| == 2 * (|raw0| / 16)
    ensures r.Success? ==> Evens(r.value) == ComplexSnapshot(raw0).value && Odds(r.value) == ComplexSnapshot(raw1).value
  {
    var z0 :- ComplexSnapshot(raw0);
    var z1 :- ComplexSnapshot(raw1);
    if |z0| != |z1| then Failure(ValueError)
    else
      Success(Interleave(z0, z1))
  }

  /** `fetch_signal`: a fresh spectrum with the calibrations currently set
      applied; nothing else about the channel changes. */
  function FetchSignal(ch: Channel, raw0: seq<Snapshot.Byte>, raw1: seq<Snapshot.Byte>,
                       derotate: (Cplx, real) -> Cplx): (r: Result<Channel>)
    ensures r.Success? <==>
              Spectrum(raw0, raw1).Success? &&
              ApplyCalibrations(Spectrum(raw0, raw1).value, ch.binOffsets, ch.cableOffsets, derotate).Success?
    ensures r.Failure? ==> r.error == ValueError
    ensures r.Success? ==> r.value == ch.(signal := r.value.signal)
    ensures r.Success? ==>
              r.value.signal == ApplyCalibrations(Spectrum(raw0, raw1).value, ch.binOffsets, ch.cableOffsets, derotate).value
    ensures r.Success? && ch.binOffsets.None? && ch.cableOffsets.None? ==>
              r.value.signal == Spectrum(raw0, raw1).value
  {
    var sig :- Spectrum(raw0, raw1);
    var calibrated :- ApplyCalibrations(sig, ch.binOffsets, ch.cableOffsets, derotate);
    Success(ch.(signal := calibrated))
  }

  /** A fetch on a channel carrying both calibrations, each with one offset
      per bin, succeeds whenever the blocks decode, and every bin of the
      fresh spectrum is rotated first by the bin-table offset and then by
      the cable offset. */
  lemma FetchSignalCalibrated(ch: Channel, raw0: seq<Snapshot.Byte>, raw1: seq<Snapshot.Byte>,
                              derotate: (Cplx, real) -> Cplx)
    requires ch.binOffsets.Some? && ch.cableOffsets.Some?
    requires Spectrum(raw0, raw1).Success?
    requires |ch.binOffsets.value| == 2 * (|raw0| / 16) && |ch.cableOffsets.value| == 2 * (|raw0| / 16)
    ensures var r := FetchSignal(ch, raw0, raw1, derotate);
            var z := Spectrum(raw0, raw1).value;
            && r.Success? && |r.value.signal| == |z|
            && forall k :: 0 <= k < |z| ==>
                 r.value.signal[k] == derotate(derotate(z[k], ch.binOffsets.value[k]), ch.cableOffsets.value[k])
  {
  }

  /** Fetching again from the same blocks changes nothing: the fresh
      spectrum depends only on the blocks and the calibrations, and a fetch
      keeps the calibrations. */
  lemma FetchSignalIdempotent(ch: Channel, raw0: seq<Snapshot.Byte>, raw1: seq<Snapshot.Byte>,
                              derotate: (Cplx, real) -> Cplx)
    requires FetchSignal(ch, raw0, raw1, derotate).Success?
    ensures FetchSignal(FetchSignal(ch, raw0, raw1, derotate).value, raw0, raw1, derotate)
            == FetchSignal(ch, raw0, raw1, derotate)
  {
  }

  /** The constructor: no calibration, one fetch, then bins over the band
      for as many bins as the spectrum holds. */
  function NewChannel(comb: Pair, fStart: nat, fStop: nat, raw0: seq<Snapshot.Byte>, raw1: seq<Snapshot.Byte>,
                      derotate: (Cplx, real) -> Cplx): (r: Result<Channel>)
    ensures r.Success? ==> r.value.comb == comb && r.value.fStart == fStart && r.value.fStop == fStop
    ensures r.Success? ==> r.value.binOffsets.None? && r.value.cableOffsets.None?
    ensures r.Success? ==> r.value.bins == FrequencyBins(fStart, fStop, |r.value.signal|)
    ensures r.Success? <==> Spectrum(raw0, raw1).Success?
    ensures r.Failure? ==> r.error == ValueError
    ensures r.Success? ==> r.value.signal == Spectrum(raw0, raw1).value
  {
    var empty := Channel(comb, fStart, fStop, [], [], None, None);
    var fetched :- FetchSignal(empty, raw0, raw1, derotate);
    Success(fetched.(bins := FrequencyBins(fStart, fStop, |fetched.signal|)))
  }

  /** The bin `strongest_frequency` picks: the first strongest bin once the
      DC bin 0 is excluded. */
  function StrongestBin(signal: seq<Cplx>): (b: nat)
    requires |signal| >= 2
    ensures 1 <= b < |signal|
    ensures forall j :: 1 <= j < |signal| ==> Norm2(signal[j]) <= Norm2(signal[b])
    ensures forall j :: 1 <= j < b ==> Norm2(signal[j]) < Norm2(signal[b])
  {
    var mags := seq(|signal| - 1, k requires 0 <= k < |signal| - 1 => Norm2(signal[k + 1]));
    var m := ArgMax(mags);
    assert forall j :: 1 <= j < |signal| ==> mags[j - 1] == Norm2(signal[j]);
    m + 1
  }

  /** `strongest_frequency`: the frequency of the strongest non-DC bin.
      A spectrum of fewer than two bins leaves nothing to search (ValueError);
      a bin beyond the frequency axis raises IndexError. */
  function StrongestFrequency(ch: Channel): (r: Result<real>)
    ensures |ch.signal| < 2 ==> r == Failure(ValueError)
    ensures |ch.signal| >= 2 ==> r == PyIndex(ch.bins, StrongestBin(ch.signal))
  {
    if |ch.signal| < 2 then Failure(ValueError)
    else PyIndex(ch.bins, StrongestBin(ch.signal))
  }

  /** With the axis of the constructor, the answer is the frequency of a bin
      whose magnitude no other non-DC bin exceeds. */
  lemma StrongestFrequencyIsPeak(ch: Channel)
    requires |ch.signal| >= 2 && |ch.bins| == |ch.signal|
    ensures StrongestFrequency(ch).Success?
    ensures exists b :: 1 <= b < |ch.signal| && StrongestFrequency(ch).value == ch.bins[b] &&
              forall j :: 1 <= j < |ch.signal| ==> Norm2(ch.signal[j]) <= Norm2(ch.signal[b])
  {
    var b := StrongestBin(ch.signal);
    assert StrongestFrequency(ch).value == ch.bins[b];
  }

  /** `phase_at_freq(f)`: the phase of the bin `round((f - f_start) / width)`,
      where the width is the distance between the first two bins. Fewer than
      two bins raise IndexError. A zero width gives numpy an infinite or
      undefined quotient, which `int()` rejects: OverflowError for a nonzero
      numerator, ValueError for zero over zero. A bin number outside the
      spectrum raises IndexError; a negative one counts from the end. */
  function PhaseAtFreq(ch: Channel, f: real, angle: Cplx -> real): (r: Result<real>)
    ensures |ch.bins| < 2 ==> r == Failure(IndexError)
    ensures |ch.bins| >= 2 && ch.bins[1] == ch.bins[0] ==>
              r == Failure(if f == ch.fStart as real then ValueError else OverflowError)
    ensures |ch.bins| >= 2 && ch.bins[1] != ch.bins[0] ==>
              var b := Round((f - ch.fStart as real) / (ch.bins[1] - ch.bins[0]));
              && (r.Success? <==> -|ch.signal| <= b < |ch.signal|)
              && (0 <= b < |ch.signal| ==> r == Success(angle(ch.signal[b])))
              && (-|ch.signal| <= b < 0 ==> r == Success(angle(ch.signal[|ch.signal| + b])))
              && (r.Failure? ==> r.error == IndexError)
  {
    if |ch.bins| < 2 then Failure(IndexError)
    else
      var width := ch.bins[1] - ch.bins[0];
      if width == 0.0 then Failure(if f == ch.fStart as real then ValueError else OverflowError)
      else
        var b := Round((f - ch.fStart as real) / width);
        var z :- PyIndex(ch.signal, b);
        Success(angle(z))
  }

  /** On the constructor's axis, any frequency within half a bin of bin `k`
      reads the phase of bin `k`; in particular bin `k`'s own frequency does. */
  lemma PhaseAtFreqReadsNearestBin(ch: Channel, f: real, angle: Cplx -> real, k: nat)
    requires ch.fStart < ch.fStop
    requires |ch.signal| >= 2 && ch.bins == FrequencyBins(ch.fStart, ch.fStop, |ch.signal|)
    requires k < |ch.signal|
    requires 2.0 * Abs(f - ch.bins[k]) < ch.bins[1] - ch.bins[0]
    ensures PhaseAtFreq(ch, f, angle) == Success(angle(ch.signal[k]))
  {
    var n := |ch.signal|;
    var w := ((ch.fStop - ch.fStart) as real) / (n as real);
    FrequencyBinAt(ch.fStart, ch.fStop, n, 0);
    FrequencyBinAt(ch.fStart, ch.fStop, n, 1);
    FrequencyBinAt(ch.fStart, ch.fStop, n, k);
    assert w > 0.0;
    var width := ch.bins[1] - ch.bins[0];
    assert width == w;
    RoundToNearestStep(f - ch.fStart as real, w, k);
  }

  /** The channel after `apply_frequency_bin_calibration`. */
  function ApplyFrequencyBinCalibration(ch: Channel, freqs: seq<real>, phases: seq<real>): (r: Result<Channel>)
    ensures r.Success? <==> FrequencyBinOffsets(ch.bins, freqs, phases).Success?
    ensures r.Success? ==> r.value == ch.(binOffsets := Some(FrequencyBinOffsets(ch.bins, freqs, phases).value))
  {
    var offsets :- FrequencyBinOffsets(ch.bins, freqs, phases);
    Success(ch.(binOffsets := Some(offsets)))
  }

  /** The channel after `apply_cable_length_calibration`. */
  function ApplyCableLengthCalibration(ch: Channel, la: real, vfa: real, lb: real, vfb: real): (r: Result<Channel>)
    ensures r.Success? <==> vfa != 0.0 && vfb != 0.0
    ensures r.Success? ==> r.value == ch.(cableOffsets := Some(CableLengthOffsets(ch.bins, la, vfa, lb, vfb).value))
  {
    var offsets :- CableLengthOffsets(ch.bins, la, vfa, lb, vfb);
    Success(ch.(cableOffsets := Some(offsets)))
  }
}
