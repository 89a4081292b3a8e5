/** The simulated correlation channel that stands in for the correlator in
    tests: it holds a spectrum handed to it and reads a bin by frequency.
    Unlike the real channel its frequency axis includes `f_stop`. */
module SignalGeneratorCorrelation {
  import opened Wrappers
  import opened NumPy
  import opened Pairs
  import opened Correlation

  /** The channel; `signal` is absent until the first `update`. */
  datatype SimChannel = SimChannel(comb: Pair, fStart: real, fStop: real, signal: Option<seq<Cplx>>)

  function NewSimChannel(comb: Pair, fStart: real, fStop: real): (ch: SimChannel)
    ensures ch.comb == comb && ch.fStart == fStart && ch.fStop == fStop && ch.signal.None?
  {
    SimChannel(comb, fStart, fStop, None)
  }

  /** `update(signal)`: replace the spectrum; nothing else changes. */
  function Update(ch: SimChannel, signal: seq<Cplx>): (r: SimChannel)
    ensures r.signal == Some(signal)
    ensures r.comb == ch.comb && r.fStart == ch.fStart && r.fStop == ch.fStop
  {
    ch.(signal := Some(signal))
  }

  /** The axis `bin_at_freq` builds: `np.linspace(f_start, f_stop, N)` with
      the endpoint. */
  function SimBins(fStart: real, fStop: real, n: nat): (bins: seq<real>)
    ensures |bins| == n
  {
    Linspace(fStart, fStop, n, true)
  }

  /** The bin width of an `N`-point axis with the endpoint; zero exactly
      for an empty band. */
  function SimWidth(fStart: real, fStop: real, n: nat): (w: real)
    requires n >= 2
    ensures w == 0.0 <==> fStart == fStop
  {
    (fStop - fStart) / ((n - 1) as real)
  }

  /** With at least two bins, bin `k` lies `k` widths above `f_start`, the
      width being the band over `N - 1`; the last bin is `f_stop`. */
  lemma SimBinAt(fStart: real, fStop: real, n: nat, k: nat)
    requires 2 <= n && k < n
    ensures SimBins(fStart, fStop, n)[k] == fStart + (k as real) * SimWidth(fStart, fStop, n)
    ensures SimBins(fStart, fStop, n)[n - 1] == fStop
  {
    LinspaceAt(fStart, fStop, n, true, k);
    var w := (fStop - fStart) / ((n - 1) as real);
    LinspaceAtStep(fStart, fStop, n, true, n - 1, w);
    assert ((n - 1) as real) * w == fStop - fStart;
  }

  /** `bin_at_freq(f)`: the spectrum entry `round((f - f_start) / width)`.
      Before any `update` there is no spectrum (AttributeError); fewer than
      two bins leave no `frequency_bins[1]` (IndexError); a zero width
      makes `int()` fail on an infinite (OverflowError) or undefined
      (ValueError) quotient; a bin number outside the spectrum raises
      IndexError and a negative one counts from the end. */
  function BinAtFreq(ch: SimChannel, f: real): (r: Result<Cplx>)
    ensures ch.signal.None? ==> r == Failure(AttributeError)
    ensures ch.signal.Some? && |ch.signal.value| < 2 ==> r == Failure(IndexError)
    ensures ch.signal.Some? && |ch.signal.value| >= 2 && ch.fStart == ch.fStop ==>
              r == Failure(if f == ch.fStart then ValueError else OverflowError)
    ensures ch.signal.Some? && |ch.signal.value| >= 2 && ch.fStart != ch.fStop ==>
              r == PyIndex(ch.signal.value, Round((f - ch.fStart) / SimWidth(ch.fStart, ch.fStop, |ch.signal.value|)))
  {
    if ch.signal.None? then Failure(AttributeError)
    else
      var signal := ch.signal.value;
      var bins := SimBins(ch.fStart, ch.fStop, |signal|);
      if |bins| < 2 then Failure(IndexError)
      else
        var width := bins[1] - bins[0];
        assert width == SimWidth(ch.fStart, ch.fStop, |signal|) by {
          SimBinAt(ch.fStart, ch.fStop, |signal|, 0);
          SimBinAt(ch.fStart, ch.fStop, |signal|, 1);
        }
        if width == 0.0 then Failure(if f == ch.fStart then ValueError else OverflowError)
        else PyIndex(signal, Round((f - ch.fStart) / width))
  }

  /** A frequency within half a bin of axis point `k` reads entry `k`; in
      particular axis point `k` itself does, whichever way the band runs. */
  lemma BinAtFreqReadsNearest(ch: SimChannel, f: real, k: nat)
    requires ch.signal.Some? && 2 <= |ch.signal.value| && k < |ch.signal.value|
    requires ch.fStart != ch.fStop
    requires 2.0 * Abs(f - SimBins(ch.fStart, ch.fStop, |ch.signal.value|)[k])
             < Abs(SimWidth(ch.fStart, ch.fStop, |ch.signal.value|))
    ensures BinAtFreq(ch, f) == Success(ch.signal.value[k])
  {
    var n := |ch.signal.value|;
    var w := SimWidth(ch.fStart, ch.fStop, n);
    SimBinAt(ch.fStart, ch.fStop, n, k);
    RoundEitherSign(f - ch.fStart, w, k);
  }

  /** `RoundToNearestStep` for a step of either sign. */
  lemma RoundEitherSign(x: real, w: real, k: nat)
    requires w != 0.0 && 2.0 * Abs(x - (k as real) * w) < Abs(w)
    ensures Round(x / w) == k
  {
    if w > 0.0 {
      RoundToNearestStep(x, w, k);
    } else {
      assert (-x) - (k as real) * (-w) == -(x - (k as real) * w);
      RoundToNearestStep(-x, -w, k);
      assert (-x) / (-w) == x / w;
    }
  }

  /** `bin_at_freq(f_start)` is the first entry and `bin_at_freq(f_stop)`
      the last. */
  lemma BinAtFreqEnds(ch: SimChannel)
    requires ch.signal.Some? && 2 <= |ch.signal.value| && ch.fStart != ch.fStop
    ensures BinAtFreq(ch, ch.fStart) == Success(ch.signal.value[0])
    ensures BinAtFreq(ch, ch.fStop) == Success(ch.signal.value[|ch.signal.value| - 1])
  {
    var n := |ch.signal.value|;
    SimBinAt(ch.fStart, ch.fStop, n, 0);
    SimBinAt(ch.fStart, ch.fStop, n, n - 1);
    BinAtFreqReadsNearest(ch, ch.fStart, 0);
    BinAtFreqReadsNearest(ch, ch.fStop, n - 1);
  }
}
