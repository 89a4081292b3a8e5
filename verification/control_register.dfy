/** The FPGA control register as the backend drives it.

    The register is a single Python integer that the host keeps a copy of;
    every operation edits the copy and then writes the whole word to the
    device. Writes are recorded as an append-only trace, so the state is
    the pair (current word, every word written so far).

    Bit layout as the code uses it:
      0        manual sync (pulsed)
      1        trigger gate: 0 blocks the snapshot trigger, 1 allows it
      2        accumulation counter reset (pulsed)
      3        FFT overflow latch reset (pulsed)
      4        impulse arm (pulsed)
      5 .. 16  FFT shift schedule (12 bits)
    The module docstring of the register class describes a different layout
    (adc select at 4:5, shift schedule at 6:18); the code is modelled. */
module ControlRegister {
  import opened Bits

  const SyncBit: nat := 0
  const TriggerBit: nat := 1
  const AccumulationResetBit: nat := 2
  const OverflowResetBit: nat := 3
  const ImpulseArmBit: nat := 4

  /** The shift schedule field is `0xFFF << 5`. */
  const ShiftScheduleMask: nat := 0xFFF
  const ShiftScheduleOffset: nat := 5

  datatype Reg = Reg(value: nat, trace: seq<nat>)

  /** The last word written to the device is the host's copy. */
  predicate Consistent(r: Reg)
  {
    |r.trace| > 0 && r.trace[|r.trace| - 1] == r.value
  }

  /** Every bit of `w` other than bit `k` is the same as in `v`. */
  ghost predicate SameBitsExcept(w: nat, v: nat, k: nat)
  {
    forall j: nat :: j != k ==> Bit(w, j) == Bit(v, j)
  }

  /** Write the host copy to the device: one more word in the trace, and
      the device then holds the host copy. */
  function Write(r: Reg): (r': Reg)
    ensures r'.value == r.value && Consistent(r')
    ensures |r'.trace| == |r.trace| + 1 && r'.trace[..|r.trace|] == r.trace
  {
    Reg(r.value, r.trace + [r.value])
  }

  function ClearBit(v: nat, k: nat): nat
  {
    AndNot(v, Shl(1, k))
  }

  function SetBit(v: nat, k: nat): nat
  {
    Or(v, Shl(1, k))
  }

  lemma ClearBitSpec(v: nat, k: nat)
    ensures Bit(ClearBit(v, k), k) == 0
    ensures SameBitsExcept(ClearBit(v, k), v, k)
  {
    forall j: nat
      ensures Bit(ClearBit(v, k), j) == if j == k then 0 else Bit(v, j)
    {
      BitAndNot(v, Shl(1, k), j);
      BitOfPow2(k, j);
    }
  }

  lemma SetBitSpec(v: nat, k: nat)
    ensures Bit(SetBit(v, k), k) == 1
    ensures SameBitsExcept(SetBit(v, k), v, k)
  {
    forall j: nat
      ensures Bit(SetBit(v, k), j) == if j == k then 1 else Bit(v, j)
    {
      BitOr(v, Shl(1, k), j);
      BitOfPow2(k, j);
    }
  }

  /** The constructor reads the device word and writes it straight back. */
  function Init(read: nat): (r: Reg)
    ensures r.value == read
    ensures r.trace == [read]
    ensures Consistent(r)
  {
    Write(Reg(read, []))
  }

  /** What a three-write pulse of bit `k` leaves behind: three new words
      whose bit `k` reads 0, 1, 0 and whose other bits are the old word's,
      ending in the old word with bit `k` cleared. */
  ghost predicate Pulsed(r: Reg, k: nat, r': Reg)
  {
    var n := |r.trace|;
    && |r'.trace| == n + 3
    && r'.trace[..n] == r.trace
    && Bit(r'.trace[n], k) == 0
    && Bit(r'.trace[n + 1], k) == 1
    && Bit(r'.trace[n + 2], k) == 0
    && SameBitsExcept(r'.trace[n], r.value, k)
    && SameBitsExcept(r'.trace[n + 1], r.value, k)
    && SameBitsExcept(r'.trace[n + 2], r.value, k)
    && Consistent(r')
  }

  function Pulse(r: Reg, k: nat): (r': Reg)
    ensures Pulsed(r, k, r')
  {
    var r1 := Write(r.(value := ClearBit(r.value, k)));
    var r2 := Write(r1.(value := SetBit(r1.value, k)));
    var r3 := Write(r2.(value := ClearBit(r2.value, k)));
    ClearBitSpec(r.value, k);
    SetBitSpec(r1.value, k);
    ClearBitSpec(r2.value, k);
    assert r3.trace[..|r.trace|] == r.trace;
    r3
  }

  function PulseSync(r: Reg): (r': Reg)
    ensures Pulsed(r, SyncBit, r')
  {
    Pulse(r, SyncBit)
  }

  function ResetAccumulationCounter(r: Reg): (r': Reg)
    ensures Pulsed(r, AccumulationResetBit, r')
  {
    Pulse(r, AccumulationResetBit)
  }

  function PulseOverflowRst(r: Reg): (r': Reg)
    ensures Pulsed(r, OverflowResetBit, r')
  {
    Pulse(r, OverflowResetBit)
  }

  function PulseImpulseArm(r: Reg): (r': Reg)
    ensures Pulsed(r, ImpulseArmBit, r')
  {
    Pulse(r, ImpulseArmBit)
  }

  /** After a pulse the register holds the old word with the pulsed bit cleared. */
  lemma PulseEndsCleared(r: Reg, k: nat)
    ensures Pulse(r, k).value == ClearBit(r.value, k)
  {
    var r' := Pulse(r, k);
    var n := |r.trace|;
    ClearBitSpec(r.value, k);
    forall j: nat
      ensures Bit(r'.value, j) == Bit(ClearBit(r.value, k), j)
    {
      assert r'.value == r'.trace[n + 2];
    }
    BitsDetermineValue(r'.value, ClearBit(r.value, k));
  }

  function BlockTrigger(r: Reg): (r': Reg)
    ensures r'.trace == r.trace + [r'.value]
    ensures Bit(r'.value, TriggerBit) == 0
    ensures SameBitsExcept(r'.value, r.value, TriggerBit)
    ensures Consistent(r')
  {
    ClearBitSpec(r.value, TriggerBit);
    Write(r.(value := ClearBit(r.value, TriggerBit)))
  }

  function AllowTrigger(r: Reg): (r': Reg)
    ensures r'.trace == r.trace + [r'.value]
    ensures Bit(r'.value, TriggerBit) == 1
    ensures SameBitsExcept(r'.value, r.value, TriggerBit)
    ensures Consistent(r')
  {
    SetBitSpec(r.value, TriggerBit);
    Write(r.(value := SetBit(r.value, TriggerBit)))
  }

  /** Blocking the trigger a second time changes nothing but repeats the write. */
  lemma BlockTriggerIdempotent(r: Reg)
    ensures BlockTrigger(BlockTrigger(r)).value == BlockTrigger(r).value
    ensures BlockTrigger(BlockTrigger(r)).trace == BlockTrigger(r).trace + [BlockTrigger(r).value]
  {
    var once := BlockTrigger(r);
    var twice := BlockTrigger(once);
    forall j: nat
      ensures Bit(twice.value, j) == Bit(once.value, j)
    {
    }
    BitsDetermineValue(twice.value, once.value);
  }

  /** Allowing the trigger a second time changes nothing but repeats the write. */
  lemma AllowTriggerIdempotent(r: Reg)
    ensures AllowTrigger(AllowTrigger(r)).value == AllowTrigger(r).value
    ensures AllowTrigger(AllowTrigger(r)).trace == AllowTrigger(r).trace + [AllowTrigger(r).value]
  {
    var once := AllowTrigger(r);
    var twice := AllowTrigger(once);
    forall j: nat
      ensures Bit(twice.value, j) == Bit(once.value, j)
    {
    }
    BitsDetermineValue(twice.value, once.value);
  }

  /** `value &= ~(0xFFF << 5); value |= schedule << 5`. The schedule is not
      masked: bits of `s` above bit 11 land above bit 16. */
  function SetShiftSchedule(r: Reg, s: nat): (r': Reg)
    ensures r'.trace == r.trace + [r'.value]
    ensures Consistent(r')
    ensures forall j: nat :: j < 5 ==> Bit(r'.value, j) == Bit(r.value, j)
    ensures forall j: nat :: 5 <= j < 17 ==> Bit(r'.value, j) == Bit(s, j - 5)
    ensures forall j: nat :: j >= 17 ==>
              Bit(r'.value, j) == if Bit(r.value, j) == 1 || Bit(s, j - 5) == 1 then 1 else 0
  {
    var cleared := AndNot(r.value, Shl(ShiftScheduleMask, ShiftScheduleOffset));
    var v := Or(cleared, Shl(s, ShiftScheduleOffset));
    forall j: nat
      ensures Bit(v, j) ==
              if j < 5 then Bit(r.value, j)
              else if j < 17 then Bit(s, j - 5)
              else if Bit(r.value, j) == 1 || Bit(s, j - 5) == 1 then 1 else 0
    {
      BitOr(cleared, Shl(s, ShiftScheduleOffset), j);
      BitAndNot(r.value, Shl(ShiftScheduleMask, ShiftScheduleOffset), j);
      BitOfShl(ShiftScheduleMask, ShiftScheduleOffset, j);
      BitOfShl(s, ShiftScheduleOffset, j);
      if j >= 5 {
        assert Pow2(12) - 1 == ShiftScheduleMask;
        BitOfLowMask(12, j - 5);
      }
    }
    Write(r.(value := v))
  }

  /** For a schedule that fits in 12 bits, bits 5..16 hold the schedule and
      every other bit is untouched. */
  lemma ShiftScheduleInField(r: Reg, s: nat)
    requires s < Pow2(12)
    ensures forall j: nat :: Bit(SetShiftSchedule(r, s).value, j) ==
              if 5 <= j < 17 then Bit(s, j - 5) else Bit(r.value, j)
  {
    forall i: nat | i >= 12
      ensures Bit(s, i) == 0
    {
      BitAboveWidth(s, 12, i);
    }
  }

  /** A schedule of 2^12 or more sets a bit above the field, whatever the
      register held before. */
  lemma ShiftScheduleOverflowsField(r: Reg, s: nat)
    requires s >= Pow2(12)
    ensures exists j: nat :: j >= 17 && Bit(SetShiftSchedule(r, s).value, j) == 1
  {
    var i := HighBitOfWide(s, 12);
    assert Bit(SetShiftSchedule(r, s).value, i + 5) == 1;
  }
}
