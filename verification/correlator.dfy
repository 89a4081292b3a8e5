/** The ROACH correlator interface (`Correlator`): its baseline layout, the
    de-interleaving of the raw time-domain snapshot into per-channel
    windows, the arm / trigger / fetch discipline of `fetch_combinations`,
    and the zero-padded valid-mode cross-correlation of two windows.

    Hardware access is not modelled: snapshot contents and status registers
    arrive as parameters, and the actions taken on the device are recorded
    as a sequence of `Event`s. */
module Correlator {
  import opened Wrappers
  import opened Bits
  import opened Pairs
  import opened NumPy
  import ControlRegister
  import Snapshot
  import Correlation

  /** Channels per frame of the DRAM snapshot and samples per frame (four
      consecutive samples of each channel); both are fixed in the code. */
  const FrameChannels: nat := 4
  const FrameLength: nat := 16

  /** The baseline lists fixed at construction. */
  datatype Layout = Layout(numChannels: nat, crossCombinations: seq<Pair>, autoCombinations: seq<Pair>)

  /** `cross_combinations` is `itertools.combinations(range(n), 2)`;
      only the `0x0` auto-correlation is implemented. */
  function NewLayout(numChannels: nat): (l: Layout)
    ensures l.numChannels == numChannels
    ensures |l.crossCombinations| == Choose2(numChannels)
    ensures forall a: nat, b: nat :: a < b < numChannels ==> (a, b) in l.crossCombinations
    ensures forall k :: 0 <= k < |l.crossCombinations| ==>
              l.crossCombinations[k].0 < l.crossCombinations[k].1 < numChannels
    ensures StrictlyIncreasing(l.crossCombinations)
    ensures l.autoCombinations == [(0, 0)]
  {
    Layout(numChannels, Combinations(numChannels), [(0, 0)])
  }

  /** The `frequency_correlations` dictionary built by inserting one entry
      per combination; `mk` stands for constructing a channel object. */
  function BuildCorrelations<V>(combs: seq<Pair>, mk: Pair -> V): (m: map<Pair, V>)
    ensures forall c :: c in m <==> c in combs
    ensures forall c :: c in m ==> m[c] == mk(c)
  {
    if |combs| == 0 then map[]
    else
      var init := combs[..|combs| - 1];
      assert combs == init + [combs[|combs| - 1]];
      BuildCorrelations(init, mk)[combs[|combs| - 1] := mk(combs[|combs| - 1])]
  }

  /** The channel dictionary has exactly one entry for every cross pair
      `(i, j)`, `i < j < n`, and one for `(0, 0)`. */
  lemma FrequencyCorrelationKeys<V>(numChannels: nat, mk: Pair -> V)
    ensures var l := NewLayout(numChannels);
            forall c :: c in BuildCorrelations(l.crossCombinations + l.autoCombinations, mk)
                        <==> c.0 < c.1 < numChannels || c == (0, 0)
  {
  }

  /** `fetch_time_domain_snapshot`: the DRAM snapshot holds frames of 16
      samples, four consecutive samples for each of the four channels in
      turn. Channel `c` of frame `s` is `sig[16s + 4c .. 16s + 4c + 3]`.
      The code keeps four lists and fills `num_channels` of them, so more
      than four channels raises IndexError as soon as there is a frame. A
      trailing partial frame is dropped. */
  method FetchTimeDomainSnapshot(sig: seq<int>, numChannels: nat) returns (r: Result<seq<seq<int>>>)
    ensures r.Failure? <==> numChannels > FrameChannels && |sig| >= FrameLength
    ensures r.Success? ==> |r.value| == FrameChannels
    ensures r.Success? ==> forall c :: 0 <= c < FrameChannels ==>
              |r.value[c]| == (if c < numChannels then 4 * (|sig| / 16) else 0)
    ensures r.Success? ==> forall c, i :: 0 <= c < FrameChannels && 0 <= i < |r.value[c]| ==>
              FramePos(c, i) < |sig| &&
              r.value[c][i] == sig[FramePos(c, i)]
  {
    var frames := |sig| / 16;
    var signals: seq<seq<int>> := [[], [], [], []];
    var start := 0;
    while start < frames
      invariant 0 <= start <= frames
      invariant numChannels > FrameChannels ==> start == 0
      invariant |signals| == FrameChannels
      invariant forall c :: 0 <= c < FrameChannels ==>
                  |signals[c]| == (if c < numChannels then 4 * start else 0)
      invariant Deinterleaved(sig, signals)
    {
      var chan := 0;
      while chan < numChannels
        invariant 0 <= chan <= numChannels && chan <= FrameChannels
        invariant |signals| == FrameChannels
        invariant forall c :: 0 <= c < FrameChannels ==>
                    |signals[c]| == (if c < chan then 4 * start + 4 else if c < numChannels then 4 * start else 0)
        invariant Deinterleaved(sig, signals)
      {
        if chan >= FrameChannels {
          return Failure(IndexError);
        }
        var base := 4 * (chan + 4 * start);
        var appended := signals[chan] + [sig[base], sig[base + 1], sig[base + 2], sig[base + 3]];
        AppendBlock(sig, signals, chan, start);
        signals := signals[chan := appended];
        chan := chan + 1;
      }
      start := start + 1;
    }
    return Success(signals);
  }

  /** Appending frame `start`'s block of channel `chan` keeps every channel
      de-interleaved. */
  lemma AppendBlock(sig: seq<int>, signals: seq<seq<int>>, chan: nat, start: nat)
    requires |signals| == FrameChannels && chan < FrameChannels
    requires |signals[chan]| == 4 * start && 16 * start + 16 <= |sig|
    requires Deinterleaved(sig, signals)
    ensures var base := 4 * (chan + 4 * start);
            Deinterleaved(sig, signals[chan := signals[chan] + [sig[base], sig[base + 1], sig[base + 2], sig[base + 3]]])
  {
    var base := 4 * (chan + 4 * start);
    var appended := signals[chan] + [sig[base], sig[base + 1], sig[base + 2], sig[base + 3]];
    var next := signals[chan := appended];
    forall c, i | 0 <= c < FrameChannels && 0 <= i < |next[c]|
      ensures FramePos(c, i) < |sig| && next[c][i] == sig[FramePos(c, i)]
    {
      if c != chan {
        assert next[c] == signals[c];
        assert signals[c][i] == sig[FramePos(c, i)];
      } else if i < 4 * start {
        assert next[c][i] == signals[c][i];
        assert signals[c][i] == sig[FramePos(c, i)];
      } else {
        var t := i - 4 * start;
        assert i / 4 == start && i % 4 == t by {
          assert i == 4 * start + t && 0 <= t < 4;
        }
        assert next[c][i] == sig[base + t];
        assert base + t == FramePos(c, i);
      }
    }
  }

  /** Four channel windows put back frame by frame: frame `s` is channel 0's
      samples `4s .. 4s+3`, then channel 1's, channel 2's and channel 3's. */
  function Reassemble(chs: seq<seq<int>>, frames: nat): (r: seq<int>)
    requires |chs| == FrameChannels
    requires forall c :: 0 <= c < FrameChannels ==> |chs[c]| >= 4 * frames
    ensures |r| == 16 * frames
  {
    if frames == 0 then []
    else
      var s := frames - 1;
      Reassemble(chs, s)
        + chs[0][4 * s .. 4 * s + 4] + chs[1][4 * s .. 4 * s + 4]
        + chs[2][4 * s .. 4 * s + 4] + chs[3][4 * s .. 4 * s + 4]
  }

  /** Where sample `i` of channel `c` sits in the snapshot: offset `i mod 4`
      of the channel's block in frame `i / 4`. */
  function FramePos(c: int, i: int): int
  {
    16 * (i / 4) + 4 * c + i % 4
  }

  /** Sample `i` of channel `c` is the snapshot sample at offset `i mod 4`
      of the channel's block in frame `i / 4`. */
  ghost predicate Deinterleaved(sig: seq<int>, chs: seq<seq<int>>)
    requires |chs| == FrameChannels
  {
    forall c, i :: 0 <= c < FrameChannels && 0 <= i < |chs[c]| ==>
      FramePos(c, i) < |sig| &&
      chs[c][i] == sig[FramePos(c, i)]
  }

  /** Frame `s` of channel `c` is four consecutive snapshot samples. */
  lemma ChannelSlice(sig: seq<int>, chs: seq<seq<int>>, c: nat, s: nat)
    requires |chs| == FrameChannels && c < FrameChannels
    requires 16 * s + 16 <= |sig|
    requires 4 * s + 4 <= |chs[c]|
    requires Deinterleaved(sig, chs)
    ensures chs[c][4 * s .. 4 * s + 4] == sig[16 * s + 4 * c .. 16 * s + 4 * c + 4]
  {
    var x := chs[c][4 * s .. 4 * s + 4];
    var y := sig[16 * s + 4 * c .. 16 * s + 4 * c + 4];
    forall t | 0 <= t < 4
      ensures x[t] == y[t]
    {
      var i := 4 * s + t;
      assert i / 4 == s && i % 4 == t;
    }
  }

  /** De-interleaving loses nothing but the trailing partial frame: putting
      the four channel windows back together gives the whole-frame prefix of
      the snapshot. */
  lemma {:induction false} ReassembleDeinterleaved(sig: seq<int>, chs: seq<seq<int>>, frames: nat)
    requires 16 * frames <= |sig|
    requires |chs| == FrameChannels
    requires forall c :: 0 <= c < FrameChannels ==> |chs[c]| >= 4 * frames
    requires Deinterleaved(sig, chs)
    ensures Reassemble(chs, frames) == sig[..16 * frames]
  {
    if frames > 0 {
      var s := frames - 1;
      var b := 16 * s;
      ReassembleDeinterleaved(sig, chs, s);
      assert chs[0][4 * s .. 4 * s + 4] == sig[b .. b + 4]
          && chs[1][4 * s .. 4 * s + 4] == sig[b + 4 .. b + 8]
          && chs[2][4 * s .. 4 * s + 4] == sig[b + 8 .. b + 12]
          && chs[3][4 * s .. 4 * s + 4] == sig[b + 12 .. b + 16] by {
        assert forall c :: 0 <= c < FrameChannels ==> 4 * s + 4 <= |chs[c]|;
        ChannelSlice(sig, chs, 0, s);
        ChannelSlice(sig, chs, 1, s);
        ChannelSlice(sig, chs, 2, s);
        ChannelSlice(sig, chs, 3, s);
      }
      SplitFrame(sig, b);
    }
  }

  /** A whole frame is its four channel blocks in order. */
  lemma SplitFrame(sig: seq<int>, b: nat)
    requires b + 16 <= |sig|
    ensures sig[..b + 16] == sig[..b] + sig[b .. b + 4] + sig[b + 4 .. b + 8]
                             + sig[b + 8 .. b + 12] + sig[b + 12 .. b + 16]
  {
  }

  /** The windows `FetchTimeDomainSnapshot` returns for up to four channels
      re-interleave to the whole-frame prefix of the snapshot. */
  method SnapshotRoundTrip(sig: seq<int>) returns (chs: seq<seq<int>>)
    ensures |chs| == FrameChannels
    ensures forall c :: 0 <= c < FrameChannels ==> |chs[c]| == 4 * (|sig| / 16)
    ensures Reassemble(chs, |sig| / 16) == sig[..16 * (|sig| / 16)]
  {
    var r := FetchTimeDomainSnapshot(sig, FrameChannels);
    chs := r.value;
    assert Deinterleaved(sig, chs);
    ReassembleDeinterleaved(sig, chs, |sig| / 16);
  }

  /** `get_fft_overflow_state`: the FFT has overflowed exactly when the
      `fft_overflow` register reads nonzero. */
  function GetFftOverflowState(register: nat): (overflowed: bool)
    ensures overflowed <==> register != 0
  {
    if register == 0 then false else true
  }

  /** What `fetch_combinations` does to the device, in order. */
  datatype Event =
    | RegisterWrite(word: nat)
    | Arm(comb: Pair)
    | Fetch(comb: Pair)
    | OverflowQuery(overflowed: bool)

  datatype FetchOutcome = FetchOutcome(events: seq<Event>, reg: ControlRegister.Reg, overflowed: bool)

  /** The words written, in order. */
  function Writes(es: seq<Event>): seq<nat>
  {
    if |es| == 0 then []
    else Writes(es[..|es| - 1]) + (if es[|es| - 1].RegisterWrite? then [es[|es| - 1].word] else [])
  }

  /** The combinations armed, in order. */
  function Arms(es: seq<Event>): seq<Pair>
  {
    if |es| == 0 then []
    else Arms(es[..|es| - 1]) + (if es[|es| - 1].Arm? then [es[|es| - 1].comb] else [])
  }

  /** The combinations fetched, in order. */
  function Fetches(es: seq<Event>): seq<Pair>
  {
    if |es| == 0 then []
    else Fetches(es[..|es| - 1]) + (if es[|es| - 1].Fetch? then [es[|es| - 1].comb] else [])
  }

  /** Whether the snapshot trigger is allowed just before event `p`: bit 1
      of the most recent register write, if there was one. */
  function TriggerAt(es: seq<Event>, p: nat): Option<bool>
    requires p <= |es|
  {
    if p == 0 then None
    else if es[p - 1].RegisterWrite? then Some(Bit(es[p - 1].word, ControlRegister.TriggerBit) == 1)
    else TriggerAt(es, p - 1)
  }

  /** The sequence ends with the overflow query followed by three register
      writes whose bit 3 reads 0, 1, 0. */
  ghost predicate OverflowLatchPulsedLast(es: seq<Event>)
  {
    var n := |es|;
    && n >= 4
    && es[n - 4].OverflowQuery?
    && es[n - 3].RegisterWrite? && Bit(es[n - 3].word, ControlRegister.OverflowResetBit) == 0
    && es[n - 2].RegisterWrite? && Bit(es[n - 2].word, ControlRegister.OverflowResetBit) == 1
    && es[n - 1].RegisterWrite? && Bit(es[n - 1].word, ControlRegister.OverflowResetBit) == 0
  }

  function WriteEvents(words: seq<nat>): (es: seq<Event>)
    ensures |es| == |words|
    ensures forall k :: 0 <= k < |es| ==> es[k] == RegisterWrite(words[k])
  {
    seq(|words|, k requires 0 <= k < |words| => RegisterWrite(words[k]))
  }

  function ArmEvents(combs: seq<Pair>): (es: seq<Event>)
    ensures |es| == |combs|
    ensures forall k :: 0 <= k < |es| ==> es[k] == Arm(combs[k])
  {
    seq(|combs|, k requires 0 <= k < |combs| => Arm(combs[k]))
  }

  function FetchEvents(combs: seq<Pair>): (es: seq<Event>)
    ensures |es| == |combs|
    ensures forall k :: 0 <= k < |es| ==> es[k] == Fetch(combs[k])
  {
    seq(|combs|, k requires 0 <= k < |combs| => Fetch(combs[k]))
  }

  /** The event sequence of one `fetch_combinations` call: the trigger-block
      write `w0`, one arm per combination, the trigger-allow write `w1`, one
      fetch per combination, the overflow query and the pulse writes. */
  function EventsOf(w0: nat, w1: nat, combs: seq<Pair>, overflowed: bool, pulse: seq<nat>): (es: seq<Event>)
    ensures |es| == 2 * |combs| + 3 + |pulse|
    ensures es[0] == RegisterWrite(w0)
    ensures forall p :: 1 <= p <= |combs| ==> es[p] == Arm(combs[p - 1])
    ensures es[|combs| + 1] == RegisterWrite(w1)
    ensures forall p :: |combs| + 2 <= p <= 2 * |combs| + 1 ==> es[p] == Fetch(combs[p - |combs| - 2])
    ensures es[2 * |combs| + 2] == OverflowQuery(overflowed)
    ensures forall p :: 2 * |combs| + 3 <= p < |es| ==> es[p] == RegisterWrite(pulse[p - 2 * |combs| - 3])
  {
    [RegisterWrite(w0)] + ArmEvents(combs) + [RegisterWrite(w1)] + FetchEvents(combs)
      + [OverflowQuery(overflowed)] + WriteEvents(pulse)
  }

  lemma {:induction false} FilterAppend(a: seq<Event>, b: seq<Event>)
    ensures Writes(a + b) == Writes(a) + Writes(b)
    ensures Arms(a + b) == Arms(a) + Arms(b)
    ensures Fetches(a + b) == Fetches(a) + Fetches(b)
    decreases |b|
  {
    if |b| == 0 {
      assert a + b == a;
    } else {
      var b' := b[..|b| - 1];
      assert (a + b)[..|a + b| - 1] == a + b';
      assert (a + b)[|a + b| - 1] == b[|b| - 1];
      FilterAppend(a, b');
    }
  }

  lemma FiltersOfOne(e: Event)
    ensures Writes([e]) == (if e.RegisterWrite? then [e.word] else [])
    ensures Arms([e]) == (if e.Arm? then [e.comb] else [])
    ensures Fetches([e]) == (if e.Fetch? then [e.comb] else [])
  {
    assert [e][..0] == [];
  }

  lemma {:induction false} FiltersOfArms(combs: seq<Pair>)
    ensures Writes(ArmEvents(combs)) == [] && Fetches(ArmEvents(combs)) == []
    ensures Arms(ArmEvents(combs)) == combs
  {
    if |combs| > 0 {
      var init := combs[..|combs| - 1];
      assert ArmEvents(combs)[..|combs| - 1] == ArmEvents(init);
      FiltersOfArms(init);
    }
  }

  lemma {:induction false} FiltersOfFetches(combs: seq<Pair>)
    ensures Writes(FetchEvents(combs)) == [] && Arms(FetchEvents(combs)) == []
    ensures Fetches(FetchEvents(combs)) == combs
  {
    if |combs| > 0 {
      var init := combs[..|combs| - 1];
      assert FetchEvents(combs)[..|combs| - 1] == FetchEvents(init);
      FiltersOfFetches(init);
    }
  }

  lemma {:induction false} FiltersOfWrites(words: seq<nat>)
    ensures Arms(WriteEvents(words)) == [] && Fetches(WriteEvents(words)) == []
    ensures Writes(WriteEvents(words)) == words
  {
    if |words| > 0 {
      var init := words[..|words| - 1];
      assert WriteEvents(words)[..|words| - 1] == WriteEvents(init);
      FiltersOfWrites(init);
    }
  }

  /** Reading the events back: the words written are the two trigger writes
      then the pulse, and the arms and the fetches are each the combination
      list in order. */
  lemma EventsFilters(w0: nat, w1: nat, combs: seq<Pair>, o: bool, pulse: seq<nat>)
    ensures var es := EventsOf(w0, w1, combs, o, pulse);
            Writes(es) == [w0, w1] + pulse && Arms(es) == combs && Fetches(es) == combs
  {
    var armed := [RegisterWrite(w0)] + ArmEvents(combs) + [RegisterWrite(w1)];
    FiltersOfArmPhase(w0, w1, combs);
    FiltersOfFetchPhase(armed, [w0, w1], combs, o, pulse);
  }

  /** The block write, the arms and the allow write. */
  lemma FiltersOfArmPhase(w0: nat, w1: nat, combs: seq<Pair>)
    ensures var a := [RegisterWrite(w0)] + ArmEvents(combs) + [RegisterWrite(w1)];
            Writes(a) == [w0, w1] && Arms(a) == combs && Fetches(a) == []
  {
    var a1 := [RegisterWrite(w0)] + ArmEvents(combs);
    assert Writes(a1) == [w0] && Arms(a1) == combs && Fetches(a1) == [] by {
      FiltersOfOne(RegisterWrite(w0));
      FiltersOfArms(combs);
      FilterAppend([RegisterWrite(w0)], ArmEvents(combs));
    }
    FiltersOfOne(RegisterWrite(w1));
    FilterAppend(a1, [RegisterWrite(w1)]);
  }

  /** The fetches, the overflow query and the pulse writes, after a prefix
      that armed `combs` and wrote `written`. */
  lemma FiltersOfFetchPhase(a: seq<Event>, written: seq<nat>, combs: seq<Pair>, o: bool, pulse: seq<nat>)
    requires Writes(a) == written && Arms(a) == combs && Fetches(a) == []
    ensures var es := a + FetchEvents(combs) + [OverflowQuery(o)] + WriteEvents(pulse);
            Writes(es) == written + pulse && Arms(es) == combs && Fetches(es) == combs
  {
    var a3 := a + FetchEvents(combs);
    assert Writes(a3) == written && Arms(a3) == combs && Fetches(a3) == combs by {
      FiltersOfFetches(combs);
      FilterAppend(a, FetchEvents(combs));
    }
    var a4 := a3 + [OverflowQuery(o)];
    assert Writes(a4) == written && Arms(a4) == combs && Fetches(a4) == combs by {
      FiltersOfOne(OverflowQuery(o));
      FilterAppend(a3, [OverflowQuery(o)]);
    }
    FiltersOfWrites(pulse);
    FilterAppend(a4, WriteEvents(pulse));
  }

  /** With no register write strictly between `j` and `p`, the trigger state
      before `p` is the one written at `j`. */
  lemma {:induction false} TriggerSince(es: seq<Event>, j: nat, p: nat)
    requires j < p <= |es|
    requires es[j].RegisterWrite?
    requires forall q :: j < q < p ==> !es[q].RegisterWrite?
    ensures TriggerAt(es, p) == Some(Bit(es[j].word, ControlRegister.TriggerBit) == 1)
    decreases p
  {
    if p - 1 > j {
      TriggerSince(es, j, p - 1);
    }
  }

  /** Every arm happens under the block write, every fetch under the allow
      write, and every arm comes before every fetch. */
  lemma EventsOrder(w0: nat, w1: nat, combs: seq<Pair>, o: bool, pulse: seq<nat>)
    ensures var es := EventsOf(w0, w1, combs, o, pulse);
            && (forall p :: 0 <= p < |es| && es[p].Arm? ==>
                  TriggerAt(es, p) == Some(Bit(w0, ControlRegister.TriggerBit) == 1))
            && (forall p :: 0 <= p < |es| && es[p].Fetch? ==>
                  TriggerAt(es, p) == Some(Bit(w1, ControlRegister.TriggerBit) == 1))
            && (forall p, q :: 0 <= p < |es| && 0 <= q < |es| && es[p].Arm? && es[q].Fetch? ==> p < q)
  {
    var es := EventsOf(w0, w1, combs, o, pulse);
    var m := |combs|;
    forall p | 0 <= p < |es| && es[p].Arm?
      ensures TriggerAt(es, p) == Some(Bit(w0, ControlRegister.TriggerBit) == 1)
    {
      TriggerSince(es, 0, p);
    }
    forall p | 0 <= p < |es| && es[p].Fetch?
      ensures TriggerAt(es, p) == Some(Bit(w1, ControlRegister.TriggerBit) == 1)
    {
      TriggerSince(es, m + 1, p);
    }
  }

  /** `fetch_combinations(combinations)`: block the trigger, arm every
      snapshot, allow the trigger, fetch every snapshot, query the overflow
      flag (only logged), then pulse the overflow latch reset. `channels` is
      the key set of `frequency_correlations`: arming a combination outside
      it raises KeyError. `fetchFails` holds the combinations whose
      `fetch_signal` raises (always a ValueError, see
      `Correlation.FetchSignal`). Either exception ends the run before the
      overflow query and the latch pulse; `AbortedFetch` gives what the run
      has done by then. */
  function FetchCombinations(reg: ControlRegister.Reg, combs: seq<Pair>, channels: set<Pair>,
                             fetchFails: set<Pair>, overflowRegister: nat): (r: Result<FetchOutcome>)
    ensures r.Failure? <==> exists c :: c in combs && (c !in channels || c in fetchFails)
    ensures r.Failure? ==> r.error == if exists c :: c in combs && c !in channels then KeyError else ValueError
    ensures r.Success? ==> (r.value.overflowed <==> overflowRegister != 0)
    ensures r.Success? ==> |r.value.reg.trace| == |reg.trace| + 5 && r.value.reg.trace[..|reg.trace|] == reg.trace
    ensures r.Success? ==> ControlRegister.Consistent(r.value.reg)
    ensures r.Success? ==> Writes(r.value.events) == r.value.reg.trace[|reg.trace|..]
    ensures r.Success? ==> Arms(r.value.events) == combs && Fetches(r.value.events) == combs
    ensures r.Success? ==> forall p :: 0 <= p < |r.value.events| && r.value.events[p].Arm? ==>
              TriggerAt(r.value.events, p) == Some(false)
    ensures r.Success? ==> forall p :: 0 <= p < |r.value.events| && r.value.events[p].Fetch? ==>
              TriggerAt(r.value.events, p) == Some(true)
    ensures r.Success? ==> forall p, q ::
              (0 <= p < |r.value.events| && 0 <= q < |r.value.events| &&
               r.value.events[p].Arm? && r.value.events[q].Fetch?) ==> p < q
    ensures r.Success? ==> OverflowLatchPulsedLast(r.value.events)
  {
    if exists c :: c in combs && c !in channels then Failure(KeyError)
    else if exists c :: c in combs && c in fetchFails then Failure(ValueError)
    else Success(FetchAll(reg, combs, overflowRegister))
  }

  /** The index of the first combination whose membership in `s` is `inside`. */
  function FirstIn(combs: seq<Pair>, s: set<Pair>, inside: bool): (i: nat)
    requires exists c :: c in combs && (c in s) == inside
    ensures i < |combs| && (combs[i] in s) == inside
    ensures forall j :: 0 <= j < i ==> (combs[j] in s) != inside
  {
    if (combs[0] in s) == inside then 0
    else
      assert exists c :: c in combs[1..] && (c in s) == inside by {
        var c :| c in combs && (c in s) == inside;
        var k :| 0 <= k < |combs| && combs[k] == c;
        assert combs[1..][k - 1] == c;
      }
      1 + FirstIn(combs[1..], s, inside)
  }

  /** What holds of a run of `fetch_combinations` that raised: the device
      received exactly the words written in the events, the last of them is
      the host copy, none of them touches the overflow latch reset bit, and
      the overflow flag was never read. */
  ghost predicate AbortedRun(reg: ControlRegister.Reg, o: (seq<Event>, ControlRegister.Reg))
  {
    && |Writes(o.0)| > 0
    && o.1.trace == reg.trace + Writes(o.0)
    && ControlRegister.Consistent(o.1)
    && (forall k :: 0 <= k < |Writes(o.0)| ==>
          Bit(Writes(o.0)[k], ControlRegister.OverflowResetBit) == Bit(reg.value, ControlRegister.OverflowResetBit))
    && (forall p :: 0 <= p < |o.0| ==> !o.0[p].OverflowQuery?)
  }

  /** What `fetch_combinations` has done when it raises. A combination
      without a channel stops it while arming, after the block write and the
      arms of the combinations before it; otherwise the first fetch that
      raises stops it after the allow write and the fetches before it. */
  function AbortedFetch(reg: ControlRegister.Reg, combs: seq<Pair>, channels: set<Pair>, fetchFails: set<Pair>)
    : (o: (seq<Event>, ControlRegister.Reg))
    requires exists c :: c in combs && (c !in channels || c in fetchFails)
    ensures AbortedRun(reg, o)
    ensures (exists c :: c in combs && c !in channels) ==>
              Arms(o.0) == combs[..FirstIn(combs, channels, false)] && Fetches(o.0) == []
    ensures (forall c :: c in combs ==> c in channels) ==>
              Arms(o.0) == combs && Fetches(o.0) == combs[..FirstIn(combs, fetchFails, true)]
  {
    if exists c :: c in combs && c !in channels then
      AbortedWhileArming(reg, combs[..FirstIn(combs, channels, false)])
    else
      AbortedWhileFetching(reg, combs, combs[..FirstIn(combs, fetchFails, true)])
  }

  /** Raised while arming: the block write, then the arms of `armed`. */
  function AbortedWhileArming(reg: ControlRegister.Reg, armed: seq<Pair>): (o: (seq<Event>, ControlRegister.Reg))
    ensures AbortedRun(reg, o) && |Writes(o.0)| == 1
    ensures Arms(o.0) == armed && Fetches(o.0) == []
  {
    var blocked := ControlRegister.BlockTrigger(reg);
    var es := [RegisterWrite(blocked.value)] + ArmEvents(armed);
    assert Writes(es) == [blocked.value] && Arms(es) == armed && Fetches(es) == [] by {
      FiltersOfOne(RegisterWrite(blocked.value));
      FiltersOfArms(armed);
      FilterAppend([RegisterWrite(blocked.value)], ArmEvents(armed));
    }
    (es, blocked)
  }

  /** Raised while fetching: the block write, every arm, the allow write,
      then the fetches of `fetched`. */
  function AbortedWhileFetching(reg: ControlRegister.Reg, combs: seq<Pair>, fetched: seq<Pair>)
    : (o: (seq<Event>, ControlRegister.Reg))
    ensures AbortedRun(reg, o) && |Writes(o.0)| == 2
    ensures Arms(o.0) == combs && Fetches(o.0) == fetched
  {
    var blocked := ControlRegister.BlockTrigger(reg);
    var allowed := ControlRegister.AllowTrigger(blocked);
    var armed := [RegisterWrite(blocked.value)] + ArmEvents(combs) + [RegisterWrite(allowed.value)];
    var es := armed + FetchEvents(fetched);
    assert Writes(es) == [blocked.value, allowed.value] && Arms(es) == combs && Fetches(es) == fetched by {
      FiltersOfArmPhase(blocked.value, allowed.value, combs);
      FiltersOfFetches(fetched);
      FilterAppend(armed, FetchEvents(fetched));
    }
    (es, allowed)
  }

  /** The run of `fetch_combinations` once every combination is known to
      have a channel. */
  function FetchAll(reg: ControlRegister.Reg, combs: seq<Pair>, overflowRegister: nat): (o: FetchOutcome)
    ensures o.overflowed <==> overflowRegister != 0
    ensures |o.reg.trace| == |reg.trace| + 5 && o.reg.trace[..|reg.trace|] == reg.trace
    ensures ControlRegister.Consistent(o.reg)
    ensures Writes(o.events) == o.reg.trace[|reg.trace|..]
    ensures Arms(o.events) == combs && Fetches(o.events) == combs
    ensures forall p :: 0 <= p < |o.events| && o.events[p].Arm? ==> TriggerAt(o.events, p) == Some(false)
    ensures forall p :: 0 <= p < |o.events| && o.events[p].Fetch? ==> TriggerAt(o.events, p) == Some(true)
    ensures forall p, q :: (0 <= p < |o.events| && 0 <= q < |o.events| &&
              o.events[p].Arm? && o.events[q].Fetch?) ==> p < q
    ensures OverflowLatchPulsedLast(o.events)
  {
    var o := Run(reg, combs, overflowRegister);
    RunFacts(reg, combs, overflowRegister, o);
    o
  }

  /** The steps of `fetch_combinations`: block the trigger, arm every
      combination, allow the trigger, fetch every combination, read the
      overflow register and pulse the overflow reset. */
  function Run(reg: ControlRegister.Reg, combs: seq<Pair>, overflowRegister: nat): FetchOutcome
  {
    var blocked := ControlRegister.BlockTrigger(reg);
    var allowed := ControlRegister.AllowTrigger(blocked);
    var overflowed := GetFftOverflowState(overflowRegister);
    var reset := ControlRegister.PulseOverflowRst(allowed);
    var pulse := reset.trace[|allowed.trace|..];
    FetchOutcome(EventsOf(blocked.value, allowed.value, combs, overflowed, pulse), reset, overflowed)
  }

  lemma RunFacts(reg: ControlRegister.Reg, combs: seq<Pair>, overflowRegister: nat, o: FetchOutcome)
    requires o == Run(reg, combs, overflowRegister)
    ensures o.overflowed <==> overflowRegister != 0
    ensures |o.reg.trace| == |reg.trace| + 5 && o.reg.trace[..|reg.trace|] == reg.trace
    ensures ControlRegister.Consistent(o.reg)
    ensures Writes(o.events) == o.reg.trace[|reg.trace|..]
    ensures Arms(o.events) == combs && Fetches(o.events) == combs
    ensures forall p :: 0 <= p < |o.events| && o.events[p].Arm? ==> TriggerAt(o.events, p) == Some(false)
    ensures forall p :: 0 <= p < |o.events| && o.events[p].Fetch? ==> TriggerAt(o.events, p) == Some(true)
    ensures forall p, q :: (0 <= p < |o.events| && 0 <= q < |o.events| &&
              o.events[p].Arm? && o.events[q].Fetch?) ==> p < q
    ensures OverflowLatchPulsedLast(o.events)
  {
    var blocked := ControlRegister.BlockTrigger(reg);
    var allowed := ControlRegister.AllowTrigger(blocked);
    var reset := ControlRegister.PulseOverflowRst(allowed);
    var n := |allowed.trace|;
    var pulse := reset.trace[n..];
    assert |pulse| == 3 && pulse[0] == reset.trace[n] && pulse[1] == reset.trace[n + 1] && pulse[2] == reset.trace[n + 2];
    assert reset.trace == reg.trace + [blocked.value, allowed.value] + pulse by {
      assert reset.trace == reset.trace[..n] + pulse;
    }
    EventsFacts(blocked.value, allowed.value, combs, o.overflowed, pulse, o.events);
  }

  /** The event log of a run has the promised shape whenever the first
      write blocks the trigger, the second allows it and the last three
      clear, set and clear the overflow reset bit. */
  lemma EventsFacts(w0: nat, w1: nat, combs: seq<Pair>, overflowed: bool, pulse: seq<nat>, es: seq<Event>)
    requires es == EventsOf(w0, w1, combs, overflowed, pulse)
    requires Bit(w0, ControlRegister.TriggerBit) == 0 && Bit(w1, ControlRegister.TriggerBit) == 1
    requires |pulse| == 3
    requires Bit(pulse[0], ControlRegister.OverflowResetBit) == 0
    requires Bit(pulse[1], ControlRegister.OverflowResetBit) == 1
    requires Bit(pulse[2], ControlRegister.OverflowResetBit) == 0
    ensures Writes(es) == [w0, w1] + pulse
    ensures Arms(es) == combs && Fetches(es) == combs
    ensures forall p :: 0 <= p < |es| && es[p].Arm? ==> TriggerAt(es, p) == Some(false)
    ensures forall p :: 0 <= p < |es| && es[p].Fetch? ==> TriggerAt(es, p) == Some(true)
    ensures forall p, q :: (0 <= p < |es| && 0 <= q < |es| && es[p].Arm? && es[q].Fetch?) ==> p < q
    ensures OverflowLatchPulsedLast(es)
  {
    EventsFilters(w0, w1, combs, overflowed, pulse);
    EventsOrder(w0, w1, combs, overflowed, pulse);
    var m := |es|;
    assert es[m - 3] == RegisterWrite(pulse[0]);
    assert es[m - 2] == RegisterWrite(pulse[1]);
    assert es[m - 1] == RegisterWrite(pulse[2]);
  }

  /** `fetch_all` on a freshly constructed correlator never raises
      KeyError: every combination it fetches has a channel object, so only
      a failing fetch can stop it. */
  lemma FetchAllSucceeds<V>(numChannels: nat, mk: Pair -> V, reg: ControlRegister.Reg, fetchFails: set<Pair>,
                            overflowRegister: nat)
    ensures var l := NewLayout(numChannels);
            var combs := l.crossCombinations + l.autoCombinations;
            var r := FetchCombinations(reg, combs, BuildCorrelations(combs, mk).Keys, fetchFails, overflowRegister);
            && (r.Success? <==> forall c :: c in combs ==> c !in fetchFails)
            && (r.Failure? ==> r.error == ValueError)
  {
    var l := NewLayout(numChannels);
    var combs := l.crossCombinations + l.autoCombinations;
    FetchKeyed(reg, combs, BuildCorrelations(combs, mk).Keys, fetchFails, overflowRegister);
  }

  /** When every combination has a channel, only a failing fetch stops the run. */
  lemma FetchKeyed(reg: ControlRegister.Reg, combs: seq<Pair>, channels: set<Pair>, fetchFails: set<Pair>,
                   overflowRegister: nat)
    requires forall c :: c in combs ==> c in channels
    ensures var r := FetchCombinations(reg, combs, channels, fetchFails, overflowRegister);
            && (r.Success? <==> forall c :: c in combs ==> c !in fetchFails)
            && (r.Failure? ==> r.error == ValueError)
  {
    assert !exists c :: c in combs && c !in channels;
  }

  /** The two snapshot blocks each combination's `fetch_signal` reads. */
  type Blocks = Pair -> (seq<Snapshot.Byte>, seq<Snapshot.Byte>)

  /** `fetch_signal` of the channel for `c` on its blocks. */
  function Refetch(ch: Correlation.Channel, c: Pair, blocks: Blocks, derotate: (Correlation.Cplx, real) -> Correlation.Cplx)
    : Result<Correlation.Channel>
  {
    Correlation.FetchSignal(ch, blocks(c).0, blocks(c).1, derotate)
  }

  /** The channels whose `fetch_signal` raises on the blocks they read. */
  function FailingFetches(channels: map<Pair, Correlation.Channel>, blocks: Blocks,
                          derotate: (Correlation.Cplx, real) -> Correlation.Cplx): set<Pair>
  {
    set c | c in channels && Refetch(channels[c], c, blocks, derotate).Failure?
  }

  /** The channel dictionary after every combination in `combs` has been
      fetched. A channel's fresh spectrum depends only on its blocks and
      its calibrations, so a combination listed twice ends as if fetched
      once (`Correlation.FetchSignalIdempotent`). */
  function Refreshed(channels: map<Pair, Correlation.Channel>, combs: seq<Pair>, blocks: Blocks,
                     derotate: (Correlation.Cplx, real) -> Correlation.Cplx): (m: map<Pair, Correlation.Channel>)
    ensures m.Keys == channels.Keys
    ensures forall c :: c in channels && c in combs && Refetch(channels[c], c, blocks, derotate).Success? ==>
              m[c] == Refetch(channels[c], c, blocks, derotate).value
    ensures forall c :: c in channels && c !in combs ==> m[c] == channels[c]
  {
    map c | c in channels ::
      if c in combs && Refetch(channels[c], c, blocks, derotate).Success?
      then Refetch(channels[c], c, blocks, derotate).value
      else channels[c]
  }

  /** `fetch_combinations` on the `frequency_correlations` dictionary: the
      run on the device, with the failing fetches being those whose
      `fetch_signal` raises on the blocks it reads, and on success the
      dictionary in which every fetched channel holds its fresh, calibrated
      spectrum and every other channel is as it was. */
  function FetchChannels(reg: ControlRegister.Reg, combs: seq<Pair>, channels: map<Pair, Correlation.Channel>,
                         blocks: Blocks, derotate: (Correlation.Cplx, real) -> Correlation.Cplx,
                         overflowRegister: nat): (r: Result<(FetchOutcome, map<Pair, Correlation.Channel>)>)
    ensures r.Success? <==> forall c :: c in combs ==> c in channels && Refetch(channels[c], c, blocks, derotate).Success?
    ensures r.Failure? ==> r.error == if exists c :: c in combs && c !in channels then KeyError else ValueError
    ensures r.Success? ==> r.value.0 == FetchAll(reg, combs, overflowRegister)
    ensures r.Success? ==> r.value.1.Keys == channels.Keys
    ensures r.Success? ==> forall c :: c in combs ==> r.value.1[c] == Refetch(channels[c], c, blocks, derotate).value
    ensures r.Success? ==> forall c :: c in channels && c !in combs ==> r.value.1[c] == channels[c]
  {
    if exists c :: c in combs && c !in channels then Failure(KeyError)
    else if exists c :: c in combs && Refetch(channels[c], c, blocks, derotate).Failure? then Failure(ValueError)
    else Success((FetchAll(reg, combs, overflowRegister), Refreshed(channels, combs, blocks, derotate)))
  }

  /** On the device, `FetchChannels` is the run `FetchCombinations` describes
      with the failing fetches read off the channels: the same outcome, or
      the same exception. */
  lemma FetchChannelsRuns(reg: ControlRegister.Reg, combs: seq<Pair>, channels: map<Pair, Correlation.Channel>,
                          blocks: Blocks, derotate: (Correlation.Cplx, real) -> Correlation.Cplx, overflowRegister: nat)
    ensures var r := FetchChannels(reg, combs, channels, blocks, derotate, overflowRegister);
            var d := FetchCombinations(reg, combs, channels.Keys, FailingFetches(channels, blocks, derotate), overflowRegister);
            && (r.Success? <==> d.Success?)
            && (r.Success? ==> d.value == r.value.0)
            && (r.Failure? ==> d.error == r.error)
  {
    var fails := FailingFetches(channels, blocks, derotate);
    var r := FetchChannels(reg, combs, channels, blocks, derotate, overflowRegister);
    var d := FetchCombinations(reg, combs, channels.Keys, fails, overflowRegister);
    if exists c :: c in combs && c !in channels {
      assert r == Failure(KeyError) && d == Failure(KeyError);
    } else if exists c :: c in combs && Refetch(channels[c], c, blocks, derotate).Failure? {
      var c :| c in combs && Refetch(channels[c], c, blocks, derotate).Failure?;
      assert c in fails;
      assert r == Failure(ValueError) && d == Failure(ValueError);
    } else {
      assert forall c :: c in combs ==> c !in fails;
      assert d == Success(FetchAll(reg, combs, overflowRegister));
      assert r.value.0 == FetchAll(reg, combs, overflowRegister);
    }
  }

  /** When every combination has a channel, only a failing `fetch_signal`
      stops the run. */
  lemma FetchChannelsKeyed(reg: ControlRegister.Reg, combs: seq<Pair>, channels: map<Pair, Correlation.Channel>,
                           blocks: Blocks, derotate: (Correlation.Cplx, real) -> Correlation.Cplx, overflowRegister: nat)
    requires forall c :: c in combs ==> c in channels
    ensures var r := FetchChannels(reg, combs, channels, blocks, derotate, overflowRegister);
            && (r.Success? <==> forall c :: c in combs ==> Refetch(channels[c], c, blocks, derotate).Success?)
            && (r.Failure? ==> r.error == ValueError)
  {
    assert !exists c :: c in combs && c !in channels;
  }

  /** `fetch_all` on a freshly built correlator whose channel for `c` is
      `mk(c)`: it succeeds exactly when every channel's fetch succeeds, and
      then every channel holds the spectrum its own blocks give. */
  lemma FetchAllRefreshes(numChannels: nat, mk: Pair -> Correlation.Channel, reg: ControlRegister.Reg, blocks: Blocks,
                          derotate: (Correlation.Cplx, real) -> Correlation.Cplx, overflowRegister: nat)
    ensures var l := NewLayout(numChannels);
            var combs := l.crossCombinations + l.autoCombinations;
            var r := FetchChannels(reg, combs, BuildCorrelations(combs, mk), blocks, derotate, overflowRegister);
            && (r.Success? <==> forall c :: c in combs ==> Refetch(mk(c), c, blocks, derotate).Success?)
            && (r.Failure? ==> r.error == ValueError)
            && (r.Success? ==> r.value.1.Keys == BuildCorrelations(combs, mk).Keys)
            && (r.Success? ==> forall c :: c in combs ==> r.value.1[c] == Refetch(mk(c), c, blocks, derotate).value)
  {
    var l := NewLayout(numChannels);
    var combs := l.crossCombinations + l.autoCombinations;
    var channels := BuildCorrelations(combs, mk);
    FetchChannelsKeyed(reg, combs, channels, blocks, derotate, overflowRegister);
  }

  /** `np.correlate(a, v, 'valid')` term: `sum_n a[n + k] * v[n]`. */
  function LagSum(a: seq<int>, v: seq<int>, k: nat): int
    requires k + |v| <= |a|
  {
    if |v| == 0 then 0
    else LagSum(a, v[..|v| - 1], k) + a[|v| - 1 + k] * v[|v| - 1]
  }

  /** `np.correlate(a, v, mode='valid')` on real sequences. numpy rejects
      an empty operand, and when `v` is the longer one it correlates the
      other way round and reverses the result. */
  function CorrelateValid(a: seq<int>, v: seq<int>): (r: Result<seq<int>>)
    ensures r.Success? <==> |a| > 0 && |v| > 0
    ensures r.Success? && |v| <= |a| ==> |r.value| == |a| - |v| + 1
    ensures r.Success? && |a| < |v| ==> |r.value| == |v| - |a| + 1
    ensures r.Success? && |v| <= |a| ==>
              forall k :: 0 <= k < |r.value| ==> r.value[k] == LagSum(a, v, k)
  {
    if |a| == 0 || |v| == 0 then Failure(ValueError)
    else if |v| <= |a| then Success(seq(|a| - |v| + 1, k requires 0 <= k <= |a| - |v| => LagSum(a, v, k)))
    else
      var swapped := seq(|v| - |a| + 1, k requires 0 <= k <= |v| - |a| => LagSum(v, a, k));
      Success(seq(|swapped|, k requires 0 <= k < |swapped| => swapped[|swapped| - 1 - k]))
  }

  function Zeros(n: nat): (z: seq<int>)
    ensures |z| == n
    ensures forall k :: 0 <= k < n ==> z[k] == 0
  {
    seq(n, k => 0)
  }

  /** Python slice `s[0:m]`. */
  function Take(s: seq<int>, m: nat): (t: seq<int>)
    ensures |t| == if |s| < m then |s| else m
    ensures t == s[..|t|]
  {
    if |s| < m then s else s[..m]
  }

  /** The first operand: the channel window truncated to `maxLen` samples
      and zero-padded by `pad` on both sides. */
  function PaddedWindow(s: seq<int>, pad: nat, maxLen: nat): (a: seq<int>)
    ensures |a| == |Take(s, maxLen)| + 2 * pad
    ensures forall k :: 0 <= k < |a| ==>
              a[k] == if pad <= k < pad + |Take(s, maxLen)| then s[k - pad] else 0
  {
    Zeros(pad) + Take(s, maxLen) + Zeros(pad)
  }

  /** The zero-extended value of `x` at a possibly out-of-range index. */
  function At(x: seq<int>, i: int): int
  {
    if 0 <= i < |x| then x[i] else 0
  }

  /** `sum_{n < m} x[n + lag] * y[n]`, reading `x` as zero outside its range. */
  function ShiftedSum(x: seq<int>, y: seq<int>, lag: int, m: nat): int
    requires m <= |y|
  {
    if m == 0 then 0 else ShiftedSum(x, y, lag, m - 1) + At(x, m - 1 + lag) * y[m - 1]
  }

  lemma {:induction false} LagSumOfPadded(x: seq<int>, y: seq<int>, pad: nat, k: nat, m: nat)
    requires m <= |y|
    requires k + |y| <= |x| + 2 * pad
    ensures var a := Zeros(pad) + x + Zeros(pad);
            LagSum(a, y[..m], k) == ShiftedSum(x, y, k - pad, m)
  {
    var a := Zeros(pad) + x + Zeros(pad);
    if m > 0 {
      LagSumOfPadded(x, y, pad, k, m - 1);
      assert y[..m][..m - 1] == y[..m - 1];
      var i := m - 1 + k;
      assert a[i] == At(x, i - pad);
    }
  }

  /** One baseline of `do_time_domain_cross_correlation_cross_first`,
      before the upsampling: channel `a` padded and correlated against
      channel `b`. For equal-length windows there are `2*pad + 1` entries,
      and entry `k` is the correlation of the unpadded windows at a lag of
      `k - pad` samples. */
  function CrossCorrelateWindows(sa: seq<int>, sb: seq<int>, pad: nat, maxLen: nat): (r: Result<seq<int>>)
    ensures r.Success? <==> |Take(sb, maxLen)| > 0 && |Take(sa, maxLen)| + 2 * pad > 0
    ensures |sa| == |sb| && r.Success? ==> |r.value| == 2 * pad + 1
    ensures |sa| == |sb| && r.Success? ==> forall k :: 0 <= k < |r.value| ==>
              r.value[k] == ShiftedSum(Take(sa, maxLen), Take(sb, maxLen), k - pad, |Take(sb, maxLen)|)
  {
    var a := PaddedWindow(sa, pad, maxLen);
    var b := Take(sb, maxLen);
    var c := CorrelateValid(a, b);
    if |sa| == |sb| && |b| > 0 then
      PaddedLags(Take(sa, maxLen), b, pad);
      c
    else c
  }

  lemma PaddedLags(x: seq<int>, y: seq<int>, pad: nat)
    requires |x| == |y| > 0
    ensures var c := CorrelateValid(Zeros(pad) + x + Zeros(pad), y);
            c.Success? && |c.value| == 2 * pad + 1 &&
            forall k :: 0 <= k < |c.value| ==> c.value[k] == ShiftedSum(x, y, k - pad, |y|)
  {
    var c := CorrelateValid(Zeros(pad) + x + Zeros(pad), y);
    forall k | 0 <= k < |c.value|
      ensures c.value[k] == ShiftedSum(x, y, k - pad, |y|)
    {
      LagSumOfPadded(x, y, pad, k, |y|);
      assert y[..|y|] == y;
    }
  }

  /** The energy `sum_n x[n]^2` of a window. */
  function Energy(x: seq<int>): (e: int)
    ensures e >= 0
  {
    if |x| == 0 then 0
    else
      var last := x[|x| - 1];
      assert last * last >= 0 by {
        if last < 0 { assert last * last == (-last) * (-last); }
      }
      Energy(x[..|x| - 1]) + last * last
  }

  lemma {:induction false} ShiftedSumAtZeroLag(x: seq<int>, m: nat)
    requires m <= |x|
    ensures ShiftedSum(x, x, 0, m) == Energy(x[..m])
  {
    if m > 0 {
      ShiftedSumAtZeroLag(x, m - 1);
      assert x[..m][..m - 1] == x[..m - 1];
    }
  }

  /** The zero-lag entry of a window correlated with itself is the energy
      of the truncated window. */
  lemma ZeroLagIsEnergy(s: seq<int>, pad: nat, maxLen: nat)
    requires |Take(s, maxLen)| > 0
    ensures CrossCorrelateWindows(s, s, pad, maxLen).value[pad] == Energy(Take(s, maxLen))
  {
    var w := Take(s, maxLen);
    ShiftedSumAtZeroLag(w, |w|);
    assert w[..|w|] == w;
  }

  /** `do_time_domain_cross_correlation_cross_first` before upsampling:
      one correlation per cross combination. A window index outside the
      de-interleaved channels raises IndexError. */
  function CrossCorrelations(signals: seq<seq<int>>, combs: seq<Pair>, pad: nat, maxLen: nat)
    : (r: Result<map<Pair, seq<int>>>)
    ensures r.Success? <==> forall c :: c in combs ==>
              c.0 < |signals| && c.1 < |signals| &&
              CrossCorrelateWindows(signals[c.0], signals[c.1], pad, maxLen).Success?
    ensures r.Success? ==> forall c :: c in r.value <==> c in combs
    ensures r.Success? ==> forall c :: c in r.value ==>
              r.value[c] == CrossCorrelateWindows(signals[c.0], signals[c.1], pad, maxLen).value
  {
    if |combs| == 0 then Success(map[])
    else
      var init := combs[..|combs| - 1];
      var last := combs[|combs| - 1];
      assert combs == init + [last];
      var rest := CrossCorrelations(signals, init, pad, maxLen);
      if rest.Failure? then rest
      else if last.0 >= |signals| || last.1 >= |signals| then Failure(IndexError)
      else
        var c := CrossCorrelateWindows(signals[last.0], signals[last.1], pad, maxLen);
        if c.Failure? then Failure(c.error)
        else Success(rest.value[last := c.value])
  }

  /** The sample-time axis `do_time_domain_cross_correlation_cross_first`
      attaches to a correlation of `numCorr` entries: the padded window's
      axis starts at `-pad/fs` with spacing `1/fs`, the second window's at 0,
      and the correlation's axis runs from the difference of their first
      times to the difference of their last times. */
  function CorrelationTimes(pad: nat, lenA: nat, lenB: nat, numCorr: nat, fs: real): (t: seq<real>)
    requires lenA > 0 && lenB > 0 && fs > 0.0
    ensures |t| == numCorr
    ensures numCorr > 0 ==> t[0] == -((pad as real) / fs)
  {
    var aTime := PaddedAxis(pad, lenA, fs);
    var bTime := PlainAxis(lenB, fs);
    Linspace(aTime[0] - bTime[0], aTime[lenA - 1] - bTime[lenB - 1], numCorr, true)
  }

  /** `a_time`: `len(a)` points from `-pad/fs`, stopping short of `(len(a) - pad)/fs`. */
  function PaddedAxis(pad: nat, lenA: nat, fs: real): (t: seq<real>)
    requires fs > 0.0
    ensures |t| == lenA
    ensures lenA > 0 ==> t[0] == -((pad as real) / fs)
  {
    Linspace(-((pad as real) / fs), ((lenA as real) - (pad as real)) / fs, lenA, false)
  }

  /** `b_time`: `len(b)` points from 0, stopping short of `len(b)/fs`. */
  function PlainAxis(lenB: nat, fs: real): (t: seq<real>)
    requires fs > 0.0
    ensures |t| == lenB
    ensures lenB > 0 ==> t[0] == 0.0
  {
    Linspace(0.0, (lenB as real) / fs, lenB, false)
  }

  lemma DivAsScale(a: real, fs: real)
    requires fs > 0.0
    ensures a / fs == a * (1.0 / fs)
  {
  }

  lemma DivOfScaled(a: real, d: real, u: real)
    requires d > 0.0 && a == d * u
    ensures a / d == u
  {
  }

  lemma ScaleCancel(n: real, u: real)
    requires n > 0.0
    ensures (n * u) / n == u
  {
  }

  lemma ScaledLag(k: int, pad: int, fs: real)
    requires fs > 0.0
    ensures -((pad as real) * (1.0 / fs)) + (k as real) * (1.0 / fs) == ((k - pad) as real) / fs
  {
    DivAsScale((k - pad) as real, fs);
  }

  /** With equal-length windows, entry `k` of the correlation sits at time
      `(k - pad) / fs`: its lag in samples divided by the sample rate. */
  lemma CorrelationTimeIsLag(pad: nat, n: nat, fs: real)
    requires n > 0 && fs > 0.0
    ensures var t := CorrelationTimes(pad, n + 2 * pad, n, 2 * pad + 1, fs);
            forall k :: 0 <= k < |t| ==> t[k] == ((k - pad) as real) / fs
  {
    var t := CorrelationTimes(pad, n + 2 * pad, n, 2 * pad + 1, fs);
    CorrelationTimesUniform(pad, n, fs);
    forall k | 0 <= k < |t|
      ensures t[k] == ((k - pad) as real) / fs
    {
      ScaledLag(k, pad, fs);
    }
  }

  /** The correlation axis starts at `-pad/fs` and steps by `1/fs`. */
  lemma CorrelationTimesUniform(pad: nat, n: nat, fs: real)
    requires n > 0 && fs > 0.0
    ensures var t := CorrelationTimes(pad, n + 2 * pad, n, 2 * pad + 1, fs);
            forall k :: 0 <= k < |t| ==> t[k] == -((pad as real) * (1.0 / fs)) + (k as real) * (1.0 / fs)
  {
    var t := CorrelationTimes(pad, n + 2 * pad, n, 2 * pad + 1, fs);
    forall k | 0 <= k < |t|
      ensures t[k] == -((pad as real) * (1.0 / fs)) + (k as real) * (1.0 / fs)
    {
      CorrelationTimeAt(pad, n, fs, k);
    }
  }

  lemma CorrelationTimeAt(pad: nat, n: nat, fs: real, k: nat)
    requires n > 0 && fs > 0.0 && k <= 2 * pad
    ensures CorrelationTimes(pad, n + 2 * pad, n, 2 * pad + 1, fs)[k]
            == -((pad as real) * (1.0 / fs)) + (k as real) * (1.0 / fs)
  {
    var x := PaddedAxis(pad, n + 2 * pad, fs)[0] - PlainAxis(n, fs)[0];
    var y := PaddedAxis(pad, n + 2 * pad, fs)[n + 2 * pad - 1] - PlainAxis(n, fs)[n - 1];
    CorrelationAxisEnds(pad, n, fs);
    CorrelationPoint(pad, n + 2 * pad, n, fs, k, x, y, 1.0 / fs);
  }

  /** Entry `k` of an axis whose ends are `-pad*u` and `pad*u`. */
  lemma CorrelationPoint(pad: nat, lenA: nat, n: nat, fs: real, k: nat, x: real, y: real, u: real)
    requires lenA > 0 && n > 0 && fs > 0.0 && k <= 2 * pad
    requires x == PaddedAxis(pad, lenA, fs)[0] - PlainAxis(n, fs)[0]
    requires y == PaddedAxis(pad, lenA, fs)[lenA - 1] - PlainAxis(n, fs)[n - 1]
    requires x == -((pad as real) * u) && y == x + ((2 * pad) as real) * u
    ensures CorrelationTimes(pad, lenA, n, 2 * pad + 1, fs)[k] == -((pad as real) * u) + (k as real) * u
  {
    CorrelationTimesFromEnds(pad, lenA, n, 2 * pad + 1, fs, x, y);
    UniformFromEnds(x, y, u, pad, k);
  }

  lemma CorrelationTimesFromEnds(pad: nat, lenA: nat, lenB: nat, numCorr: nat, fs: real, x: real, y: real)
    requires lenA > 0 && lenB > 0 && fs > 0.0
    requires x == PaddedAxis(pad, lenA, fs)[0] - PlainAxis(lenB, fs)[0]
    requires y == PaddedAxis(pad, lenA, fs)[lenA - 1] - PlainAxis(lenB, fs)[lenB - 1]
    ensures CorrelationTimes(pad, lenA, lenB, numCorr, fs) == Linspace(x, y, numCorr, true)
  {
  }

  /** An endpoint-inclusive axis of `2*pad + 1` points from `-pad*u` to
      `pad*u` steps by `u`. */
  lemma UniformFromEnds(x: real, y: real, u: real, pad: nat, k: nat)
    requires k <= 2 * pad
    requires x == -((pad as real) * u) && y == x + ((2 * pad) as real) * u
    ensures Linspace(x, y, 2 * pad + 1, true)[k] == x + (k as real) * u
  {
    if pad > 0 {
      DivOfScaled(y - x, (2 * pad) as real, u);
      LinspaceAtStep(x, y, 2 * pad + 1, true, k, u);
    }
  }

  /** The correlation axis runs from `-pad/fs` to `pad/fs`: the first
      times of the two windows differ by `-pad/fs`, the last by `pad/fs`. */
  lemma CorrelationAxisEnds(pad: nat, n: nat, fs: real)
    requires n > 0 && fs > 0.0
    ensures var aTime := PaddedAxis(pad, n + 2 * pad, fs);
            var bTime := PlainAxis(n, fs);
            && aTime[0] - bTime[0] == -((pad as real) * (1.0 / fs))
            && aTime[n + 2 * pad - 1] - bTime[n - 1]
               == -((pad as real) * (1.0 / fs)) + ((2 * pad) as real) * (1.0 / fs)
  {
    PaddedAxisEnds(pad, n, fs);
    PlainAxisEnds(n, fs);
    ScaleDifference(n + 2 * pad - 1, n - 1, 1.0 / fs);
  }

  /** The padded window's axis runs from `-pad/fs` to `(n + pad - 1)/fs`. */
  lemma PaddedAxisEnds(pad: nat, n: nat, fs: real)
    requires n > 0 && fs > 0.0
    ensures var aTime := PaddedAxis(pad, n + 2 * pad, fs);
            && aTime[0] == -((pad as real) * (1.0 / fs))
            && aTime[n + 2 * pad - 1] == -((pad as real) * (1.0 / fs)) + ((n + 2 * pad - 1) as real) * (1.0 / fs)
  {
    var lenA := n + 2 * pad;
    var p := pad as real;
    DivAsScale(p, fs);
    AxisStep(lenA as real, p, fs);
    LinspaceAt(-(p / fs), ((lenA as real) - p) / fs, lenA, false, 0);
    LinspaceAt(-(p / fs), ((lenA as real) - p) / fs, lenA, false, lenA - 1);
  }

  /** The second window's axis runs from 0 to `(n - 1)/fs`. */
  lemma PlainAxisEnds(n: nat, fs: real)
    requires n > 0 && fs > 0.0
    ensures var bTime := PlainAxis(n, fs);
            bTime[0] == 0.0 && bTime[n - 1] == ((n - 1) as real) * (1.0 / fs)
  {
    AxisStep(n as real, 0.0, fs);
    LinspaceAt(0.0, (n as real) / fs, n, false, 0);
    LinspaceAt(0.0, (n as real) / fs, n, false, n - 1);
  }

  lemma ScaleDifference(a: int, b: int, u: real)
    ensures (a as real) * u - (b as real) * u == ((a - b) as real) * u
  {
  }

  /** An axis from `-p/fs` to `(a - p)/fs` over `a` points steps by `1/fs`. */
  lemma AxisStep(a: real, p: real, fs: real)
    requires a > 0.0 && fs > 0.0
    ensures ((a - p) / fs - -(p / fs)) / a == 1.0 / fs
  {
    var u := 1.0 / fs;
    DivAsScale(p, fs);
    DivAsScale(a - p, fs);
    assert (a - p) / fs - -(p / fs) == a * u;
    ScaleCancel(a, u);
  }
}
